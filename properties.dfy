/** What the routines the generator writes promise, stated on
    Semantics.Eval (and so, through Correctness.EmitCorrect, on the
    emitted code): ordered choice with backtracking, sequences that fail
    as a whole, the four repetition forms, lookahead that never consumes,
    text capture and the per-routine locals each operator owns. */
module Properties {

  import opened Values
  import opened Grammar
  import opened Runtime
  import opened Semantics

  // ---------------------------------------------------------------------
  // Which routine locals an operator writes

  /** The routine locals that more than one operator can write. */
  datatype Local = AryVar | CountVar | TextStartVar | TextVar

  function Get(r: Regs, l: Local): Value {
    match l
    case AryVar => Ary(r.ary)
    case CountVar => Int(r.count)
    case TextStartVar => Int(r.textStart)
    case TextVar => r.text
  }

  /** Whether the code for `op` assigns the local `l` anywhere. */
  function Touches(op: Op, l: Local): bool
    decreases op, 0
  {
    match op
    case Choice(ops) => AnyTouches(ops, l)
    case Sequence(ops) => AnyTouches(ops, l)
    case Multiple(body, min, max, sv) =>
      Touches(body, l)
      || (if min == 0 && max == Some(1) then false
          else if (min == 0 || min == 1) && max.None? then sv && l == AryVar
          else l == CountVar)
    case AndPredicate(inner) => Touches(inner, l)
    case NotPredicate(inner) => Touches(inner, l)
    case Tag(inner, _) => Touches(inner, l)
    case Collect(inner) => l == TextStartVar || l == TextVar || Touches(inner, l)
    case _ => false
  }

  function AnyTouches(ops: seq<Op>, l: Local): (b: bool)
    ensures b <==> exists i :: 0 <= i < |ops| && Touches(ops[i], l)
    decreases ops, 0
  {
    if ops == [] then false
    else
      assert forall i :: 1 <= i < |ops| ==> ops[i] == ops[1..][i - 1];
      Touches(ops[0], l) || AnyTouches(ops[1..], l)
  }

  /** An operator that does not write a local leaves it as it found it. */
  lemma {:induction false} EvalKeeps(c: Ctx, op: Op, l: Local, r: Regs, fuel: nat)
    requires !Touches(op, l) && Eval(c, op, r, fuel).Done?
    ensures Get(Eval(c, op, r, fuel).regs, l) == Get(r, l)
    decreases fuel, op, 1
  {
    match op
    case Choice(ops) => ChoiceKeeps(c, ops, l, r, r.pos, fuel - 1);
    case Sequence(ops) => SequenceKeeps(c, ops, l, r, r.pos, fuel - 1);
    case Multiple(body, min, max, sv) =>
      if min == 0 && max == Some(1) {
        EvalKeeps(c, body, l, r, fuel);
      } else if min == 0 && max.None? {
        var r0 := if sv then r.(ary := []) else r;
        StarKeeps(c, body, sv, l, r0, fuel);
      } else if min == 1 && max.None? {
        var r0 := if sv then r.(ary := []) else r;
        EvalKeeps(c, body, l, r0, fuel);
        var out := Eval(c, body, r0, fuel);
        if Truthy(out.regs.tmp) {
          StarKeeps(c, body, sv, l, Pushed(out.regs, sv), fuel);
        }
      } else {
        CountedKeeps(c, body, max, l, r.(count := 0), fuel);
      }
    case AndPredicate(inner) => PredicateBodyKeeps(c, inner, l, r, fuel);
    case NotPredicate(inner) => PredicateBodyKeeps(c, inner, l, r, fuel);
    case Tag(inner, _) => EvalKeeps(c, inner, l, r, fuel);
    case Collect(inner) => EvalKeeps(c, inner, l, r.(textStart := r.pos), fuel);
    case _ =>
  }

  lemma {:induction false} PredicateBodyKeeps(c: Ctx, op: Op, l: Local, r: Regs, fuel: nat)
    requires !Touches(op, l) && EvalPredicateBody(c, op, r, fuel).Done?
    ensures Get(EvalPredicateBody(c, op, r, fuel).regs, l) == Get(r, l)
    decreases fuel, op, 2
  {
    if !op.Action? {
      EvalKeeps(c, op, l, r, fuel);
    }
  }

  lemma {:induction false} ChoiceKeeps(c: Ctx, ops: seq<Op>, l: Local, r: Regs, start: nat, fuel: nat)
    requires ops != [] && !AnyTouches(ops, l) && EvalChoice(c, ops, r, start, fuel).Done?
    ensures Get(EvalChoice(c, ops, r, start, fuel).regs, l) == Get(r, l)
    decreases fuel, ops, 0
  {
    EvalKeeps(c, ops[0], l, r, fuel);
    var out := Eval(c, ops[0], r, fuel);
    if !Truthy(out.regs.tmp) && |ops| > 1 {
      ChoiceKeeps(c, ops[1..], l, out.regs.(pos := start), start, fuel);
    }
  }

  lemma {:induction false} SequenceKeeps(c: Ctx, ops: seq<Op>, l: Local, r: Regs, start: nat, fuel: nat)
    requires ops != [] && !AnyTouches(ops, l) && EvalSequence(c, ops, r, start, fuel).Done?
    ensures Get(EvalSequence(c, ops, r, start, fuel).regs, l) == Get(r, l)
    decreases fuel, ops, 0
  {
    EvalKeeps(c, ops[0], l, r, fuel);
    var out := Eval(c, ops[0], r, fuel);
    if Truthy(out.regs.tmp) && |ops| > 1 {
      SequenceKeeps(c, ops[1..], l, out.regs, start, fuel);
    }
  }

  lemma {:induction false} StarKeeps(c: Ctx, body: Op, sv: bool, l: Local, r: Regs, fuel: nat)
    requires !Touches(body, l) && !(sv && l == AryVar) && EvalStar(c, body, sv, r, fuel).Done?
    ensures Get(EvalStar(c, body, sv, r, fuel).regs, l) == Get(r, l)
    decreases fuel, body, 0
  {
    assert fuel > 0;
    var out := Eval(c, body, r, fuel - 1);
    assert out.Done?;
    EvalKeeps(c, body, l, r, fuel - 1);
    if Truthy(out.regs.tmp) {
      assert EvalStar(c, body, sv, r, fuel) == EvalStar(c, body, sv, Pushed(out.regs, sv), fuel - 1);
      StarKeeps(c, body, sv, l, Pushed(out.regs, sv), fuel - 1);
      assert Get(Pushed(out.regs, sv), l) == Get(out.regs, l);
    } else {
      assert EvalStar(c, body, sv, r, fuel) == out;
    }
  }

  lemma {:induction false} CountedKeeps(c: Ctx, body: Op, max: Option<nat>, l: Local, r: Regs, fuel: nat)
    requires !Touches(body, l) && l != CountVar && EvalCounted(c, body, max, r, fuel).Done?
    ensures Get(EvalCounted(c, body, max, r, fuel).regs, l) == Get(r, l)
    decreases fuel, body, 0
  {
    EvalKeeps(c, body, l, r, fuel - 1);
    var out := Eval(c, body, r, fuel - 1);
    if Truthy(out.regs.tmp) && max.Some? && out.regs.count + 1 != max.value {
      CountedKeeps(c, body, max, l, out.regs.(count := out.regs.count + 1), fuel - 1);
    }
  }

  // ---------------------------------------------------------------------
  // Character ranges

  /** A range matches exactly one byte between its endpoints, inclusive,
      and otherwise leaves the position alone. */
  lemma RangeMatches(c: Ctx, lo: byte, hi: byte, r: Regs, fuel: nat)
    ensures var out := Eval(c, CharRange([lo], [hi]), r, fuel);
            && out.Done?
            && (Truthy(out.regs.tmp) <==> r.pos < |c.input| && lo <= c.input[r.pos] <= hi)
            && (Truthy(out.regs.tmp) ==> out.regs.pos == r.pos + 1)
            && (!Truthy(out.regs.tmp) ==> out.regs.pos == r.pos)
  {
  }

  /** Endpoints that are not single bytes cannot be evaluated (and the
      generator refuses them, see Emit.EmitOp). */
  lemma RangeNeedsBytes(c: Ctx, s: seq<byte>, f: seq<byte>, r: Regs, fuel: nat)
    requires |s| != 1 || |f| != 1
    ensures Eval(c, CharRange(s, f), r, fuel).Stuck?
  {
  }

  // ---------------------------------------------------------------------
  // Ordered choice

  /** A Choice that fails has put the position back where it started. */
  lemma {:induction false} ChoiceFailureRestores(c: Ctx, ops: seq<Op>, r: Regs, start: nat, fuel: nat)
    requires ops != []
    requires EvalChoice(c, ops, r, start, fuel).Done? && !Truthy(EvalChoice(c, ops, r, start, fuel).regs.tmp)
    ensures EvalChoice(c, ops, r, start, fuel).regs.pos == start
    decreases |ops|
  {
    var out := Eval(c, ops[0], r, fuel);
    if |ops| > 1 {
      ChoiceFailureRestores(c, ops[1..], out.regs.(pos := start), start, fuel);
    }
  }

  /** The alternatives before the `i`-th in `states`: each one ran from the
      state before it and failed, and the next started from its state with
      the position put back at `start`. */
  ghost predicate FailedBefore(c: Ctx, ops: seq<Op>, states: seq<Regs>, i: nat, start: nat, fuel: nat)
    requires i < |ops| && |states| == i + 1
  {
    forall j :: 0 <= j < i ==> FailLink(c, ops, states, j, start, fuel)
  }

  /** The `j`-th alternative failed, and the next starts from its state
      with the position put back at `start`. */
  ghost predicate FailLink(c: Ctx, ops: seq<Op>, states: seq<Regs>, j: nat, start: nat, fuel: nat)
    requires j < |ops| && j + 1 < |states|
  {
    var out := Eval(c, ops[j], states[j], fuel);
    out.Done? && !Truthy(out.regs.tmp) && states[j + 1] == out.regs.(pos := start)
  }

  /** A Choice that succeeds was decided by its first successful
      alternative: the `i`-th, after every earlier one failed, each retried
      from `start`. */
  lemma {:induction false} ChoiceOrdered(c: Ctx, ops: seq<Op>, r: Regs, start: nat, fuel: nat)
    returns (states: seq<Regs>, i: nat)
    requires ops != []
    requires EvalChoice(c, ops, r, start, fuel).Done? && Truthy(EvalChoice(c, ops, r, start, fuel).regs.tmp)
    ensures i < |ops| && |states| == i + 1 && states[0] == r
    ensures FailedBefore(c, ops, states, i, start, fuel)
    ensures Eval(c, ops[i], states[i], fuel) == EvalChoice(c, ops, r, start, fuel)
    decreases |ops|
  {
    var out := Eval(c, ops[0], r, fuel);
    if Truthy(out.regs.tmp) {
      states, i := [r], 0;
    } else {
      assert |ops| > 1;
      var rest, k := ChoiceOrdered(c, ops[1..], out.regs.(pos := start), start, fuel);
      states, i := [r] + rest, k + 1;
      forall j | 0 <= j < i
        ensures FailLink(c, ops, states, j, start, fuel)
      {
        if j > 0 {
          assert FailLink(c, ops[1..], rest, j - 1, start, fuel);
          assert ops[j] == ops[1..][j - 1] && states[j] == rest[j - 1] && states[j + 1] == rest[j];
        }
      }
      assert ops[i] == ops[1..][k];
    }
  }

  /** Conversely, once the alternatives before the `i`-th have failed, the
      Choice is whatever the `i`-th does when it succeeds: the
      alternatives after it are never tried. */
  lemma {:induction false} ChoiceFirstSuccess(c: Ctx, ops: seq<Op>, states: seq<Regs>, i: nat, start: nat, fuel: nat)
    requires i < |ops| && |states| == i + 1
    requires FailedBefore(c, ops, states, i, start, fuel)
    requires Eval(c, ops[i], states[i], fuel).Done? && Truthy(Eval(c, ops[i], states[i], fuel).regs.tmp)
    ensures EvalChoice(c, ops, states[0], start, fuel) == Eval(c, ops[i], states[i], fuel)
    decreases i
  {
    if i > 0 {
      assert FailLink(c, ops, states, 0, start, fuel);
      forall j | 0 <= j < i - 1
        ensures FailLink(c, ops[1..], states[1..], j, start, fuel)
      {
        assert FailLink(c, ops, states, j + 1, start, fuel);
        assert ops[1..][j] == ops[j + 1] && states[1..][j] == states[j + 1] && states[1..][j + 1] == states[j + 2];
      }
      assert ops[1..][i - 1] == ops[i] && states[1..][i - 1] == states[i];
      ChoiceFirstSuccess(c, ops[1..], states[1..], i - 1, start, fuel);
    }
  }

  /** The whole operator: a failed Choice consumes nothing. */
  lemma ChoiceFailsInPlace(c: Ctx, ops: seq<Op>, r: Regs, fuel: nat)
    requires Eval(c, Choice(ops), r, fuel).Done? && !Truthy(Eval(c, Choice(ops), r, fuel).regs.tmp)
    ensures Eval(c, Choice(ops), r, fuel).regs.pos == r.pos
  {
    ChoiceFailureRestores(c, ops, r, r.pos, fuel - 1);
  }

  // ---------------------------------------------------------------------
  // Sequence

  /** A Sequence that fails has put the position back where it started. */
  lemma {:induction false} SequenceFailureRestores(c: Ctx, ops: seq<Op>, r: Regs, start: nat, fuel: nat)
    requires ops != []
    requires EvalSequence(c, ops, r, start, fuel).Done? && !Truthy(EvalSequence(c, ops, r, start, fuel).regs.tmp)
    ensures EvalSequence(c, ops, r, start, fuel).regs.pos == start
    decreases |ops|
  {
    var out := Eval(c, ops[0], r, fuel);
    if Truthy(out.regs.tmp) && |ops| > 1 {
      SequenceFailureRestores(c, ops[1..], out.regs, start, fuel);
    }
  }

  /** The elements before the `n`-th in `states`: each one ran from the
      state the previous one left and succeeded. */
  ghost predicate SucceededBefore(c: Ctx, ops: seq<Op>, states: seq<Regs>, n: nat, fuel: nat)
    requires n <= |ops| && |states| == n + 1
  {
    forall j :: 0 <= j < n ==> SuccessLink(c, ops, states, j, fuel)
  }

  /** The `j`-th element ran from the `j`-th state, succeeded, and left the
      next. */
  ghost predicate SuccessLink(c: Ctx, ops: seq<Op>, states: seq<Regs>, j: nat, fuel: nat)
    requires j < |ops| && j + 1 < |states|
  {
    Eval(c, ops[j], states[j], fuel) == Done(states[j + 1]) && Truthy(states[j + 1].tmp)
  }

  /** A Sequence that fails failed at its `i`-th element, after every
      earlier one succeeded: the elements after it never ran, and the
      position is back at `start`. */
  lemma {:induction false} SequenceShortCircuits(c: Ctx, ops: seq<Op>, r: Regs, start: nat, fuel: nat)
    returns (states: seq<Regs>, i: nat)
    requires ops != []
    requires EvalSequence(c, ops, r, start, fuel).Done? && !Truthy(EvalSequence(c, ops, r, start, fuel).regs.tmp)
    ensures i < |ops| && |states| == i + 1 && states[0] == r
    ensures SucceededBefore(c, ops, states, i, fuel)
    ensures var out := Eval(c, ops[i], states[i], fuel);
            && out.Done? && !Truthy(out.regs.tmp)
            && EvalSequence(c, ops, r, start, fuel) == Done(out.regs.(pos := start))
    decreases |ops|
  {
    var out := Eval(c, ops[0], r, fuel);
    if !Truthy(out.regs.tmp) {
      states, i := [r], 0;
    } else {
      assert |ops| > 1;
      var rest, k := SequenceShortCircuits(c, ops[1..], out.regs, start, fuel);
      states, i := [r] + rest, k + 1;
      forall j | 0 <= j < i
        ensures SuccessLink(c, ops, states, j, fuel)
      {
        if j > 0 {
          assert SuccessLink(c, ops[1..], rest, j - 1, fuel);
          assert ops[j] == ops[1..][j - 1] && states[j] == rest[j - 1] && states[j + 1] == rest[j];
        }
      }
      assert ops[i] == ops[1..][k];
    }
  }

  /** A Sequence that succeeds ran every element, each from the state the
      previous one left, and every one succeeded; its outcome is the state
      the last one left. */
  lemma {:induction false} SequenceSuccessNeedsAll(c: Ctx, ops: seq<Op>, r: Regs, start: nat, fuel: nat)
    returns (states: seq<Regs>)
    requires ops != []
    requires EvalSequence(c, ops, r, start, fuel).Done? && Truthy(EvalSequence(c, ops, r, start, fuel).regs.tmp)
    ensures |states| == |ops| + 1 && states[0] == r
    ensures SucceededBefore(c, ops, states, |ops|, fuel)
    ensures EvalSequence(c, ops, r, start, fuel) == Done(states[|ops|])
    decreases |ops|
  {
    var out := Eval(c, ops[0], r, fuel);
    if |ops| == 1 {
      states := [r, out.regs];
    } else {
      var rest := SequenceSuccessNeedsAll(c, ops[1..], out.regs, start, fuel);
      states := [r] + rest;
      forall j | 0 <= j < |ops|
        ensures SuccessLink(c, ops, states, j, fuel)
      {
        if j > 0 {
          assert SuccessLink(c, ops[1..], rest, j - 1, fuel);
          assert ops[j] == ops[1..][j - 1] && states[j] == rest[j - 1] && states[j + 1] == rest[j];
        }
      }
    }
  }

  /** Conversely, a Sequence whose elements before the `i`-th succeeded in
      turn is decided by the `i`-th: if it fails, the Sequence fails at
      `start` without running the rest; if it is the last and succeeds, the
      Sequence succeeds with its state. */
  lemma {:induction false} SequenceChain(c: Ctx, ops: seq<Op>, states: seq<Regs>, i: nat, start: nat, fuel: nat)
    requires i < |ops| && |states| == i + 1
    requires SucceededBefore(c, ops, states, i, fuel)
    requires Eval(c, ops[i], states[i], fuel).Done?
    ensures var out := Eval(c, ops[i], states[i], fuel);
            && (!Truthy(out.regs.tmp) ==> EvalSequence(c, ops, states[0], start, fuel) == Done(out.regs.(pos := start)))
            && (Truthy(out.regs.tmp) && i == |ops| - 1 ==> EvalSequence(c, ops, states[0], start, fuel) == out)
    decreases i
  {
    if i > 0 {
      assert SuccessLink(c, ops, states, 0, fuel);
      forall j | 0 <= j < i - 1
        ensures SuccessLink(c, ops[1..], states[1..], j, fuel)
      {
        assert SuccessLink(c, ops, states, j + 1, fuel);
        assert ops[1..][j] == ops[j + 1] && states[1..][j] == states[j + 1] && states[1..][j + 1] == states[j + 2];
      }
      assert ops[1..][i - 1] == ops[i] && states[1..][i - 1] == states[i];
      SequenceChain(c, ops[1..], states[1..], i - 1, start, fuel);
    }
  }

  /** The whole operator: a failed Sequence consumes nothing. */
  lemma SequenceFailsInPlace(c: Ctx, ops: seq<Op>, r: Regs, fuel: nat)
    requires Eval(c, Sequence(ops), r, fuel).Done? && !Truthy(Eval(c, Sequence(ops), r, fuel).regs.tmp)
    ensures Eval(c, Sequence(ops), r, fuel).regs.pos == r.pos
  {
    SequenceFailureRestores(c, ops, r, r.pos, fuel - 1);
  }

  // ---------------------------------------------------------------------
  // Repetition

  /** (0,1) always succeeds; when its operand fails the position is put
      back and, if values are collected, `@result` is nil. */
  lemma OptionalSucceeds(c: Ctx, body: Op, sv: bool, r: Regs, fuel: nat)
    requires Eval(c, body, r, fuel).Done?
    ensures var out := Eval(c, Multiple(body, 0, Some(1), sv), r, fuel);
            var inner := Eval(c, body, r, fuel);
            && out.Done? && Truthy(out.regs.tmp)
            && (Truthy(inner.regs.tmp) ==> out == inner)
            && (!Truthy(inner.regs.tmp) ==> out.regs.pos == r.pos && (sv ==> out.regs.result == Nil))
  {
    var inner := Eval(c, body, r, fuel);
    assert Eval(c, Multiple(body, 0, Some(1), sv), r, fuel)
        == if Truthy(inner.regs.tmp) then inner
           else Done(inner.regs.(result := if sv then Nil else inner.regs.result, tmp := True, pos := r.pos));
  }

  /** The greedy loop stops only on a failure of the operand. */
  lemma {:induction false} StarEndsOnFailure(c: Ctx, body: Op, sv: bool, r: Regs, fuel: nat)
    requires EvalStar(c, body, sv, r, fuel).Done?
    ensures !Truthy(EvalStar(c, body, sv, r, fuel).regs.tmp)
    decreases fuel
  {
    var out := Eval(c, body, r, fuel - 1);
    if Truthy(out.regs.tmp) {
      StarEndsOnFailure(c, body, sv, Pushed(out.regs, sv), fuel - 1);
    }
  }

  /** The `@result` of each state, in order. */
  function Results(outs: seq<Regs>): (vs: seq<Value>)
    ensures |vs| == |outs| && forall j :: 0 <= j < |outs| ==> vs[j] == outs[j].result
  {
    seq(|outs|, j requires 0 <= j < |outs| => outs[j].result)
  }

  /** The state the `j`-th iteration of a collecting greedy loop starts
      from: the loop's own start, then each success with its `@result`
      pushed onto `_ary`. */
  function StarInput(r: Regs, outs: seq<Regs>, j: nat): Regs
    requires j <= |outs|
  {
    if j == 0 then r else Pushed(outs[j - 1], true)
  }

  /** The `j`-th iteration of the greedy loop succeeded and left
      `outs[j]`; each iteration has one unit of fuel less than the one
      before. */
  ghost predicate StarLink(c: Ctx, body: Op, r: Regs, outs: seq<Regs>, j: nat, fuel: nat)
    requires j < |outs| && j < fuel
  {
    Eval(c, body, StarInput(r, outs, j), fuel - 1 - j) == Done(outs[j]) && Truthy(outs[j].tmp)
  }

  /** The greedy loop is a chain of successful iterations, each started
      from the state the previous one left (with its `@result` pushed when
      values are collected), ended by the first iteration that fails. */
  lemma {:induction false} StarRuns(c: Ctx, body: Op, r: Regs, fuel: nat)
    returns (outs: seq<Regs>)
    requires EvalStar(c, body, true, r, fuel).Done?
    ensures |outs| < fuel
    ensures forall j :: 0 <= j < |outs| ==> StarLink(c, body, r, outs, j, fuel)
    ensures var last := Eval(c, body, StarInput(r, outs, |outs|), fuel - 1 - |outs|);
            && last.Done? && !Truthy(last.regs.tmp)
            && EvalStar(c, body, true, r, fuel) == last
    decreases fuel
  {
    var out := Eval(c, body, r, fuel - 1);
    if !Truthy(out.regs.tmp) {
      outs := [];
      assert EvalStar(c, body, true, r, fuel) == out;
    } else {
      var r1 := Pushed(out.regs, true);
      var rest := StarRuns(c, body, r1, fuel - 1);
      outs := [out.regs] + rest;
      assert EvalStar(c, body, true, r, fuel) == EvalStar(c, body, true, r1, fuel - 1);
      StarShift(c, body, r, out.regs, rest, outs, fuel, fuel - 1);
      assert fuel - 1 - |outs| == (fuel - 1) - 1 - |rest|;
    }
  }

  /** When the operand does not collect values itself, the greedy loop
      collects exactly one `@result` per successful iteration: `outs` are
      the states the successful iterations left, the iteration after them
      failed and ended the loop, and `_ary` grew by their results, in
      order. */
  lemma StarAppends(c: Ctx, body: Op, r: Regs, fuel: nat)
    returns (outs: seq<Regs>)
    requires !Touches(body, AryVar) && EvalStar(c, body, true, r, fuel).Done?
    ensures |outs| < fuel
    ensures forall j :: 0 <= j < |outs| ==> StarLink(c, body, r, outs, j, fuel)
    ensures var last := Eval(c, body, StarInput(r, outs, |outs|), fuel - 1 - |outs|);
            && last.Done? && !Truthy(last.regs.tmp)
            && EvalStar(c, body, true, r, fuel) == last
    ensures EvalStar(c, body, true, r, fuel).regs.ary == r.ary + Results(outs)
  {
    outs := StarRuns(c, body, r, fuel);
    ChainKeepsAry(c, body, r, outs, fuel);
    EvalKeeps(c, body, AryVar, StarInput(r, outs, |outs|), fuel - 1 - |outs|);
    ChainAry(r, outs, |outs|);
    assert Results(outs)[..|outs|] == Results(outs);
  }

  /** An iteration that leaves `_ary` alone hands it on unchanged from the
      push before it. */
  lemma ChainKeepsAry(c: Ctx, body: Op, r: Regs, outs: seq<Regs>, fuel: nat)
    requires !Touches(body, AryVar) && |outs| < fuel
    requires forall j :: 0 <= j < |outs| ==> StarLink(c, body, r, outs, j, fuel)
    ensures forall j {:trigger StarInput(r, outs, j)} :: 0 <= j < |outs| ==> outs[j].ary == StarInput(r, outs, j).ary
  {
    forall j | 0 <= j < |outs|
      ensures outs[j].ary == StarInput(r, outs, j).ary
    {
      assert StarLink(c, body, r, outs, j, fuel);
      EvalKeeps(c, body, AryVar, StarInput(r, outs, j), fuel - 1 - j);
    }
  }

  /** Along a chain whose iterations leave `_ary` alone, the loop's pushes
      are all that change it: one `@result` per iteration, in order. */
  lemma {:induction false} ChainAry(r: Regs, outs: seq<Regs>, n: nat)
    requires n <= |outs|
    requires forall j {:trigger StarInput(r, outs, j)} :: 0 <= j < |outs| ==> outs[j].ary == StarInput(r, outs, j).ary
    ensures StarInput(r, outs, n).ary == r.ary + Results(outs)[..n]
  {
    if n > 0 {
      var rs := Results(outs);
      ChainAry(r, outs, n - 1);
      assert outs[n - 1].ary == StarInput(r, outs, n - 1).ary;
      assert StarInput(r, outs, n).ary == outs[n - 1].ary + [rs[n - 1]];
      assert rs[..n] == rs[..n - 1] + [rs[n - 1]];
      assert r.ary + rs[..n] == (r.ary + rs[..n - 1]) + [rs[n - 1]];
    }
  }

  /** A successful first iteration followed by the iterations of the rest
      of the loop is a chain of iterations of the whole loop. */
  lemma StarShift(c: Ctx, body: Op, r: Regs, o: Regs, rest: seq<Regs>, outs: seq<Regs>, fuel: nat, inner: nat)
    requires outs == [o] + rest && |outs| < fuel && inner == fuel - 1
    requires Eval(c, body, r, inner) == Done(o) && Truthy(o.tmp)
    requires forall j :: 0 <= j < |rest| ==> StarLink(c, body, Pushed(o, true), rest, j, inner)
    ensures forall j :: 0 <= j < |outs| ==> StarLink(c, body, r, outs, j, fuel)
    ensures StarInput(r, outs, |outs|) == StarInput(Pushed(o, true), rest, |rest|)
  {
    forall j | 0 <= j < |outs|
      ensures StarLink(c, body, r, outs, j, fuel)
    {
      if j > 0 {
        assert StarLink(c, body, Pushed(o, true), rest, j - 1, inner);
        assert StarInput(r, outs, j) == StarInput(Pushed(o, true), rest, j - 1);
      }
    }
  }

  /** (0,*) with values saved: `@result` is the array of the results of
      its successful iterations, in order, and nothing else. */
  lemma StarCollects(c: Ctx, body: Op, r: Regs, fuel: nat)
    returns (outs: seq<Regs>)
    requires !Touches(body, AryVar) && Eval(c, Multiple(body, 0, None, true), r, fuel).Done?
    ensures forall j :: 0 <= j < |outs| ==> j < fuel && StarLink(c, body, r.(ary := []), outs, j, fuel)
    ensures Eval(c, Multiple(body, 0, None, true), r, fuel).regs.result == Ary(Results(outs))
  {
    outs := StarAppends(c, body, r.(ary := []), fuel);
  }

  /** (1,*) with values saved: when it succeeds, `@result` is the array
      of the first attempt's result followed by the results of the loop's
      successful iterations. */
  lemma PlusCollects(c: Ctx, body: Op, r: Regs, fuel: nat)
    returns (outs: seq<Regs>)
    requires !Touches(body, AryVar)
    requires Eval(c, body, r.(ary := []), fuel).Done? && Truthy(Eval(c, body, r.(ary := []), fuel).regs.tmp)
    requires Eval(c, Multiple(body, 1, None, true), r, fuel).Done?
    ensures var first := Eval(c, body, r.(ary := []), fuel).regs;
            && (forall j :: 0 <= j < |outs| ==> j < fuel && StarLink(c, body, Pushed(first, true), outs, j, fuel))
            && Eval(c, Multiple(body, 1, None, true), r, fuel).regs.result == Ary([first.result] + Results(outs))
  {
    var first := Eval(c, body, r.(ary := []), fuel).regs;
    EvalKeeps(c, body, AryVar, r.(ary := []), fuel);
    outs := StarAppends(c, body, Pushed(first, true), fuel);
  }

  /** (0,*) always succeeds, and with values collected `@result` is the
      array of them. */
  lemma StarSucceeds(c: Ctx, body: Op, sv: bool, r: Regs, fuel: nat)
    requires Eval(c, Multiple(body, 0, None, sv), r, fuel).Done?
    ensures var out := Eval(c, Multiple(body, 0, None, sv), r, fuel);
            Truthy(out.regs.tmp) && (sv ==> out.regs.result == Ary(out.regs.ary))
  {
  }

  /** (1,*) fails exactly when its first attempt fails, and then consumes
      nothing; otherwise it goes on like (0,*). */
  lemma PlusNeedsOne(c: Ctx, body: Op, sv: bool, r: Regs, fuel: nat)
    requires Eval(c, body, if sv then r.(ary := []) else r, fuel).Done?
    requires Eval(c, Multiple(body, 1, None, sv), r, fuel).Done?
    ensures var first := Eval(c, body, if sv then r.(ary := []) else r, fuel);
            var out := Eval(c, Multiple(body, 1, None, sv), r, fuel);
            && (Truthy(out.regs.tmp) <==> Truthy(first.regs.tmp))
            && (!Truthy(out.regs.tmp) ==> out.regs.pos == r.pos)
            && (Truthy(out.regs.tmp) && sv ==> out.regs.result == Ary(out.regs.ary))
  {
  }

  /** The bounded loop stops on a failure of the operand or when the count
      reaches the maximum. */
  lemma {:induction false} CountedStops(c: Ctx, body: Op, m: nat, r: Regs, fuel: nat)
    requires EvalCounted(c, body, Some(m), r, fuel).Done?
    ensures var out := EvalCounted(c, body, Some(m), r, fuel);
            !Truthy(out.regs.tmp) || out.regs.count == m
    decreases fuel
  {
    var out := Eval(c, body, r, fuel - 1);
    if Truthy(out.regs.tmp) && out.regs.count + 1 != m {
      CountedStops(c, body, m, out.regs.(count := out.regs.count + 1), fuel - 1);
    }
  }

  /** When the operand keeps `_count` to itself, the loop never counts past
      the maximum. */
  lemma {:induction false} CountedBounded(c: Ctx, body: Op, m: nat, r: Regs, fuel: nat)
    requires !Touches(body, CountVar) && 0 <= r.count < m
    requires EvalCounted(c, body, Some(m), r, fuel).Done?
    ensures 0 <= EvalCounted(c, body, Some(m), r, fuel).regs.count <= m
    decreases fuel
  {
    var out := Eval(c, body, r, fuel - 1);
    EvalKeeps(c, body, CountVar, r, fuel - 1);
    assert out.regs.count == r.count;
    if Truthy(out.regs.tmp) && out.regs.count + 1 != m {
      CountedBounded(c, body, m, out.regs.(count := out.regs.count + 1), fuel - 1);
    }
  }

  /** A bounded repetition succeeds exactly when it counted at least `min`
      successes; when it fails it consumes nothing. With a maximum of at
      least one and an operand that keeps `_count` to itself, it never
      counts past the maximum. */
  lemma CountedRepetition(c: Ctx, body: Op, min: nat, m: nat, sv: bool, r: Regs, fuel: nat)
    requires !(min == 0 && m == 1)
    requires Eval(c, Multiple(body, min, Some(m), sv), r, fuel).Done?
    ensures var out := Eval(c, Multiple(body, min, Some(m), sv), r, fuel);
            && (Truthy(out.regs.tmp) <==> out.regs.count >= min)
            && (!Truthy(out.regs.tmp) ==> out.regs.pos == r.pos)
            && (m >= 1 && !Touches(body, CountVar) ==> out.regs.count <= m)
  {
    if m >= 1 && !Touches(body, CountVar) {
      CountedBounded(c, body, m, r.(count := 0), fuel);
    }
  }

  /** A maximum is needed once the minimum is neither 0 nor 1: with none
      the loop cannot test its count after the first success. */
  lemma UnboundedNeedsMax(c: Ctx, body: Op, min: nat, sv: bool, r: Regs, fuel: nat)
    requires min >= 2 && fuel >= 1
    requires Eval(c, body, r.(count := 0), fuel - 1).Done? && Truthy(Eval(c, body, r.(count := 0), fuel - 1).regs.tmp)
    ensures Eval(c, Multiple(body, min, None, sv), r, fuel).Stuck?
  {
  }

  // ---------------------------------------------------------------------
  // Lookahead

  /** `&e` never consumes input and succeeds exactly when `e` does. */
  lemma AndLooksAhead(c: Ctx, op: Op, r: Regs, fuel: nat)
    requires EvalPredicateBody(c, op, r, fuel).Done?
    ensures var out := Eval(c, AndPredicate(op), r, fuel);
            && out.Done? && out.regs.pos == r.pos
            && (Truthy(out.regs.tmp) <==> Truthy(EvalPredicateBody(c, op, r, fuel).regs.tmp))
  {
  }

  /** `!e` never consumes input and succeeds exactly when `e` fails. */
  lemma NotInverts(c: Ctx, op: Op, r: Regs, fuel: nat)
    requires EvalPredicateBody(c, op, r, fuel).Done?
    ensures var out := Eval(c, NotPredicate(op), r, fuel);
            && out.Done? && out.regs.pos == r.pos
            && (Truthy(out.regs.tmp) <==> !Truthy(EvalPredicateBody(c, op, r, fuel).regs.tmp))
  {
  }

  // ---------------------------------------------------------------------
  // Actions, tags and capture

  /** An action always succeeds, consumes nothing and makes its value the
      result. */
  lemma ActionSucceeds(c: Ctx, code: string, r: Regs, fuel: nat)
    ensures var out := Eval(c, Action(code), r, fuel);
            && out.Done? && Truthy(out.regs.tmp) && out.regs.pos == r.pos
            && out.regs.result == c.host(code, ViewOf(r))
  {
  }

  /** A named tag holds the operand's result afterwards. */
  lemma TagBinds(c: Ctx, op: Op, name: string, r: Regs, fuel: nat)
    requires name != "" && Eval(c, op, r, fuel).Done?
    ensures var out := Eval(c, Tag(op, name), r, fuel);
            out.Done? && name in out.regs.tags && out.regs.tags[name] == out.regs.result
  {
    var inner := Eval(c, op, r, fuel);
    assert Eval(c, Tag(op, name), r, fuel) == Done(inner.regs.(tags := inner.regs.tags[name := inner.regs.result]));
  }

  /** After a successful capture `text` holds exactly the input the operand
      consumed, provided the operand does not start a capture of its own;
      after a failed one `text` is as it was, provided the operand does not
      assign it. */
  lemma CollectCaptures(c: Ctx, op: Op, r: Regs, fuel: nat)
    requires Eval(c, Collect(op), r, fuel).Done?
    ensures var out := Eval(c, Collect(op), r, fuel);
            && (!Touches(op, TextStartVar) && Truthy(out.regs.tmp) ==> out.regs.text == Str(GetText(c, r.pos, out.regs.pos)))
            && (!Touches(op, TextVar) && !Truthy(out.regs.tmp) ==> out.regs.text == r.text)
  {
    if !Touches(op, TextStartVar) {
      EvalKeeps(c, op, TextStartVar, r.(textStart := r.pos), fuel);
    }
    if !Touches(op, TextVar) {
      EvalKeeps(c, op, TextVar, r.(textStart := r.pos), fuel);
    }
  }
}
