/** The statements `output_op` writes for an operator do what the operator
    means: running Emit.EmitOp(op, k).code with Ruby.ExecSeq has the effect
    Semantics.Eval gives `op`, including getting stuck and not finishing
    within the fuel, and leaves every savepoint numbered below `k` alone. */
module Correctness {

  import opened Values
  import opened Naming
  import opened Grammar
  import opened Runtime
  import opened Ruby
  import opened Emit
  import opened Semantics

  /** Savepoints numbered below `k` that exist in `s0` hold the same value
      in `s1`. */
  ghost predicate Frame(s0: map<nat, nat>, s1: map<nat, nat>, k: nat) {
    forall i :: 0 <= i < k && i in s0 ==> i in s1 && s1[i] == s0[i]
  }

  /** A run of statements that ends normally agrees with an outcome. */
  ghost predicate Agrees(f: Flow, o: Outcome, env: Env, k: nat) {
    match o
    case Done(r) => f.Next? && f.env.regs == r && Frame(env.slots, f.env.slots, k)
    case Stuck => f.Stuck?
    case OutOfFuel => f.OutOfFuel?
  }

  /** A loop body that leaves its loop by `break` agrees with an outcome. */
  ghost predicate Breaks(f: Flow, o: Outcome, env: Env, k: nat) {
    match o
    case Done(r) => f.Broke? && f.env.regs == r && Frame(env.slots, f.env.slots, k)
    case Stuck => f.Stuck?
    case OutOfFuel => f.OutOfFuel?
  }

  lemma FrameRefl(s: map<nat, nat>, k: nat)
    ensures Frame(s, s, k)
  {
  }

  lemma FrameTrans(s0: map<nat, nat>, s1: map<nat, nat>, s2: map<nat, nat>, k: nat)
    requires Frame(s0, s1, k) && Frame(s1, s2, k)
    ensures Frame(s0, s2, k)
  {
  }

  lemma FrameWeaken(s0: map<nat, nat>, s1: map<nat, nat>, k: nat, k': nat)
    requires k' <= k && Frame(s0, s1, k)
    ensures Frame(s0, s1, k')
  {
  }

  /** Saving the position in a savepoint numbered `k` or higher leaves the
      lower ones alone. */
  lemma FrameSave(s: map<nat, nat>, j: nat, v: nat, k: nat)
    requires k <= j
    ensures Frame(s, s[j := v], k)
  {
  }

  lemma ExecCons(c: Ctx, s: Stmt, rest: seq<Stmt>, env: Env, fuel: nat)
    ensures ExecSeq(c, [s] + rest, env, fuel) == Then(c, ExecStmt(c, s, env, fuel), rest, fuel)
  {
    assert ([s] + rest)[0] == s;
    assert ([s] + rest)[1..] == rest;
  }

  /** One iteration of a `while true` loop. */
  lemma LoopStep(c: Ctx, kind: LoopKind, body: seq<Stmt>, env: Env, fuel: nat)
    requires fuel > 0
    ensures ExecStmt(c, Loop(kind, body), env, fuel)
         == (var f := ExecSeq(c, body, env, fuel - 1);
             if f.Broke? then Next(f.env)
             else if f.Next? then ExecStmt(c, Loop(kind, body), f.env, fuel - 1)
             else f)
  {
  }

  /** `_tmp = e` on its own. */
  lemma SetTmpCorrect(c: Ctx, e: Expr, env: Env, fuel: nat, k: nat)
    ensures Agrees(ExecSeq(c, [Do(SetTmp(e))], env, fuel), Done(AssignTmp(c, e, env.regs)), env, k)
  {
    ExecSingle(c, Do(SetTmp(e)), env, fuel);
    FrameRefl(env.slots, k);
  }

  /** The main theorem: the code written for `op` with the savepoint
      counter at `k` has the effect Eval gives `op`. */
  lemma EmitCorrect(c: Ctx, op: Op, k: nat, env: Env, fuel: nat)
    requires EmitOp(op, k).Ok?
    ensures Agrees(ExecSeq(c, EmitOp(op, k).value.code, env, fuel), Eval(c, op, env.regs, fuel), env, k)
    decreases fuel, op, 1
  {
    match op
    case Dot => SetTmpCorrect(c, GetByteCall, env, fuel, k);
    case LiteralString(lit) => SetTmpCorrect(c, MatchStringCall(lit), env, fuel, k);
    case LiteralRegexp(p) => SetTmpCorrect(c, ScanCall(p), env, fuel, k);
    case RuleReference(name) => SetTmpCorrect(c, ApplyCall(MethodName(name)), env, fuel, k);
    case InvokeRule(name, a) => SetTmpCorrect(c, InvokeCall(MethodName(name), a), env, fuel, k);
    case ForeignInvokeRule(g, name, a) =>
      SetTmpCorrect(c, ForeignCall(g, MethodName(name), a), env, fuel, k);
    case Action(code) => ActionCorrect(c, op, k, env, fuel);
    case CharRange(_, _) => RangeCorrect(c, op, k, env, fuel);
    case Choice(_) => ChoiceCorrect(c, op, k, env, fuel);
    case Sequence(_) => SequenceCorrect(c, op, k, env, fuel);
    case Multiple(_, min, max, _) =>
      if min == 0 && max == Some(1) {
        OptionalCorrect(c, op, k, env, fuel);
      } else if min == 0 && max.None? {
        StarCorrect(c, op.op, op.saveValues, k, env, fuel);
      } else if min == 1 && max.None? {
        PlusCorrect(c, op.op, op.saveValues, k, env, fuel);
      } else {
        CountedCorrect(c, op, k, env, fuel);
      }
    case AndPredicate(_) => AndCorrect(c, op, k, env, fuel);
    case NotPredicate(_) => NotCorrect(c, op, k, env, fuel);
    case Tag(_, _) => TagCorrect(c, op, k, env, fuel);
    case Collect(_) => CollectCorrect(c, op, k, env, fuel);
  }

  lemma ActionCorrect(c: Ctx, op: Op, k: nat, env: Env, fuel: nat)
    requires op.Action?
    ensures Agrees(ExecSeq(c, EmitOp(op, k).value.code, env, fuel), Eval(c, op, env.regs, fuel), env, k)
  {
    var s1 := Do(SetResult(HostCode(op.action)));
    var s2 := Do(SetTmp(TrueLit));
    ExecCons(c, s1, [s2], env, fuel);
    ExecSingle(c, s2, ExecStmt(c, s1, env, fuel).env, fuel);
    FrameRefl(env.slots, k);
  }

  lemma RangeCorrect(c: Ctx, op: Op, k: nat, env: Env, fuel: nat)
    requires op.CharRange? && EmitOp(op, k).Ok?
    ensures Agrees(ExecSeq(c, EmitOp(op, k).value.code, env, fuel), Eval(c, op, env.regs, fuel), env, k)
  {
    var ss := k;
    var lo, hi := op.start[0] as nat, op.fin[0] as nat;
    var r := env.regs;
    var env1 := env.(slots := env.slots[ss := r.pos]);
    var env2 := env1.(regs := GetByte(c, r));
    var test := If(TmpSet, [Unless(TmpBetween(lo, hi), [Do(RestorePos(ss)), Do(SetTmp(NilLit))])], []);
    FrameSave(env.slots, k, r.pos, k);
    ExecCons(c, Do(SavePos(ss)), [Do(SetTmp(GetByteCall)), test], env, fuel);
    ExecCons(c, Do(SetTmp(GetByteCall)), [test], env1, fuel);
    ExecSingle(c, test, env2, fuel);
    if Truthy(env2.regs.tmp) {
      var b := c.input[r.pos] as int;
      ExecSingle(c, Unless(TmpBetween(lo, hi), [Do(RestorePos(ss)), Do(SetTmp(NilLit))]), env2, fuel);
      if !(lo <= b <= hi) {
        var env3 := env2.(regs := env2.regs.(pos := r.pos));
        ExecCons(c, Do(RestorePos(ss)), [Do(SetTmp(NilLit))], env2, fuel);
        ExecSingle(c, Do(SetTmp(NilLit)), env3, fuel);
      }
    }
  }

  lemma ChoiceCorrect(c: Ctx, op: Op, k: nat, env: Env, fuel: nat)
    requires op.Choice? && EmitOp(op, k).Ok?
    ensures Agrees(ExecSeq(c, EmitOp(op, k).value.code, env, fuel), Eval(c, op, env.regs, fuel), env, k)
    decreases fuel, op, 0
  {
    var ss := k;
    var arms := ChoiceArms(op.ops, ss, k + 1).value;
    var loop := Loop(ChoiceLoop, arms.code);
    var env1 := env.(slots := env.slots[ss := env.regs.pos]);
    FrameSave(env.slots, k, env.regs.pos, k);
    ExecCons(c, Do(SavePos(ss)), [loop], env, fuel);
    ExecSingle(c, loop, env1, fuel);
    if fuel > 0 {
      if op.ops == [] {
        EmptyLoopDiverges(c, ChoiceLoop, env1, fuel);
      } else {
        ChoiceArmsCorrect(c, op.ops, k, k + 1, env1, env.regs.pos, fuel - 1);
        var f := ExecSeq(c, arms.code, env1, fuel - 1);
        if f.Broke? {
          FrameWeaken(env1.slots, f.env.slots, k + 1, k);
          FrameTrans(env.slots, env1.slots, f.env.slots, k);
        }
      }
    }
  }

  /** The alternatives of a Choice, run from the first: the loop body
      always leaves the loop by `break`, with the outcome EvalChoice gives. */
  lemma ChoiceArmsCorrect(c: Ctx, ops: seq<Op>, j: nat, k: nat, env: Env, start: nat, fuel: nat)
    requires ops != [] && j < k && ChoiceArms(ops, j, k).Ok?
    requires j in env.slots && env.slots[j] == start
    ensures Breaks(ExecSeq(c, ChoiceArms(ops, j, k).value.code, env, fuel),
                   EvalChoice(c, ops, env.regs, start, fuel), env, k)
    decreases fuel, ops, 0
  {
    var ss := j;
    var a := EmitOp(ops[0], k).value;
    var rest := ChoiceArms(ops[1..], ss, a.next).value;
    var last := |ops| == 1;
    var tail := [When(TmpSet, Break), Do(RestorePos(ss))] + Opt(last, [Do(Break)]);
    assert ChoiceArms(ops, ss, k).value.code == a.code + (tail + rest.code);
    ExecAppend(c, a.code, tail + rest.code, env, fuel);
    EmitCorrect(c, ops[0], k, env, fuel);
    var f := ExecSeq(c, a.code, env, fuel);
    if f.Next? {
      var e1 := f.env;
      assert ss in e1.slots && e1.slots[ss] == start;
      ExecAppend(c, tail, rest.code, e1, fuel);
      ChoiceTail(c, ss, last, e1, start, fuel);
      if !Truthy(e1.regs.tmp) && !last {
        var e2 := e1.(regs := e1.regs.(pos := start));
        ChoiceArmsCorrect(c, ops[1..], j, a.next, e2, start, fuel);
        var g := ExecSeq(c, rest.code, e2, fuel);
        if g.Broke? {
          FrameWeaken(e2.slots, g.env.slots, a.next, k);
          FrameTrans(env.slots, e2.slots, g.env.slots, k);
        }
      }
    }
  }

  /** The lines written after each alternative of a Choice. */
  lemma ChoiceTail(c: Ctx, ss: nat, last: bool, e: Env, start: nat, fuel: nat)
    requires ss in e.slots && e.slots[ss] == start
    ensures ExecSeq(c, [When(TmpSet, Break), Do(RestorePos(ss))] + Opt(last, [Do(Break)]), e, fuel)
         == if Truthy(e.regs.tmp) then Broke(e)
            else if last then Broke(e.(regs := e.regs.(pos := start)))
            else Next(e.(regs := e.regs.(pos := start)))
  {
    ExecCons(c, When(TmpSet, Break), [Do(RestorePos(ss))] + Opt(last, [Do(Break)]), e, fuel);
    ExecCons(c, Do(RestorePos(ss)), Opt(last, [Do(Break)]), e, fuel);
    ExecSingle(c, Do(Break), e.(regs := e.regs.(pos := start)), fuel);
  }

  lemma SequenceCorrect(c: Ctx, op: Op, k: nat, env: Env, fuel: nat)
    requires op.Sequence? && EmitOp(op, k).Ok?
    ensures Agrees(ExecSeq(c, EmitOp(op, k).value.code, env, fuel), Eval(c, op, env.regs, fuel), env, k)
    decreases fuel, op, 0
  {
    var ss := k;
    var arms := SequenceArms(op.ops, ss, k + 1).value;
    var loop := Loop(SequenceLoop, arms.code);
    var env1 := env.(slots := env.slots[ss := env.regs.pos]);
    FrameSave(env.slots, k, env.regs.pos, k);
    ExecCons(c, Do(SavePos(ss)), [loop], env, fuel);
    ExecSingle(c, loop, env1, fuel);
    if fuel > 0 {
      if op.ops == [] {
        EmptyLoopDiverges(c, SequenceLoop, env1, fuel);
      } else {
        SequenceArmsCorrect(c, op.ops, k, k + 1, env1, env.regs.pos, fuel - 1);
        var f := ExecSeq(c, arms.code, env1, fuel - 1);
        if f.Broke? {
          FrameWeaken(env1.slots, f.env.slots, k + 1, k);
          FrameTrans(env.slots, env1.slots, f.env.slots, k);
        }
      }
    }
  }

  /** The elements of a Sequence, run from the first: the loop body always
      leaves the loop by `break`, with the outcome EvalSequence gives. */
  lemma SequenceArmsCorrect(c: Ctx, ops: seq<Op>, j: nat, k: nat, env: Env, start: nat, fuel: nat)
    requires ops != [] && j < k && SequenceArms(ops, j, k).Ok?
    requires j in env.slots && env.slots[j] == start
    ensures Breaks(ExecSeq(c, SequenceArms(ops, j, k).value.code, env, fuel),
                   EvalSequence(c, ops, env.regs, start, fuel), env, k)
    decreases fuel, ops, 0
  {
    var ss := j;
    var a := EmitOp(ops[0], k).value;
    var rest := SequenceArms(ops[1..], ss, a.next).value;
    var last := |ops| == 1;
    var tail := if last then [Unless(TmpSet, [Do(RestorePos(ss))]), Do(Break)]
                else [Unless(TmpSet, [Do(RestorePos(ss)), Do(Break)])];
    assert SequenceArms(ops, ss, k).value.code == a.code + (tail + rest.code);
    ExecAppend(c, a.code, tail + rest.code, env, fuel);
    EmitCorrect(c, ops[0], k, env, fuel);
    var f := ExecSeq(c, a.code, env, fuel);
    if f.Next? {
      var e1 := f.env;
      assert ss in e1.slots && e1.slots[ss] == start;
      ExecAppend(c, tail, rest.code, e1, fuel);
      var e2 := e1.(regs := e1.regs.(pos := start));
      if last {
        ExecCons(c, Unless(TmpSet, [Do(RestorePos(ss))]), [Do(Break)], e1, fuel);
        ExecSingle(c, Do(RestorePos(ss)), e1, fuel);
        ExecSingle(c, Do(Break), e1, fuel);
        ExecSingle(c, Do(Break), e2, fuel);
      } else {
        ExecSingle(c, Unless(TmpSet, [Do(RestorePos(ss)), Do(Break)]), e1, fuel);
        ExecCons(c, Do(RestorePos(ss)), [Do(Break)], e1, fuel);
        ExecSingle(c, Do(Break), e2, fuel);
        if Truthy(e1.regs.tmp) {
          SequenceArmsCorrect(c, ops[1..], j, a.next, e1, start, fuel);
          var g := ExecSeq(c, rest.code, e1, fuel);
          if g.Broke? {
            FrameWeaken(e1.slots, g.env.slots, a.next, k);
            FrameTrans(env.slots, e1.slots, g.env.slots, k);
          }
        }
      }
    }
  }

  /** The lines written after the operand of (0,1). */
  lemma OptionalTail(c: Ctx, ss: nat, sv: bool, e: Env, start: nat, fuel: nat)
    requires ss in e.slots && e.slots[ss] == start
    ensures ExecSeq(c, Opt(sv, [WhenNot(TmpSet, SetResult(NilLit))]) + [Unless(TmpSet, [Do(SetTmp(TrueLit)), Do(RestorePos(ss))])], e, fuel)
         == Next(if Truthy(e.regs.tmp) then e
                 else e.(regs := e.regs.(result := if sv then Nil else e.regs.result, tmp := True, pos := start)))
  {
    var fix := [Do(SetTmp(TrueLit)), Do(RestorePos(ss))];
    var e2 := if sv && !Truthy(e.regs.tmp) then e.(regs := e.regs.(result := Nil)) else e;
    if sv {
      ExecCons(c, WhenNot(TmpSet, SetResult(NilLit)), [Unless(TmpSet, fix)], e, fuel);
    } else {
      assert Opt(sv, [WhenNot(TmpSet, SetResult(NilLit))]) + [Unless(TmpSet, fix)] == [Unless(TmpSet, fix)];
    }
    ExecSingle(c, Unless(TmpSet, fix), e2, fuel);
    ExecCons(c, Do(SetTmp(TrueLit)), [Do(RestorePos(ss))], e2, fuel);
    ExecSingle(c, Do(RestorePos(ss)), e2.(regs := e2.regs.(tmp := True)), fuel);
  }

  lemma OptionalCorrect(c: Ctx, op: Op, k: nat, env: Env, fuel: nat)
    requires op.Multiple? && op.min == 0 && op.max == Some(1) && EmitOp(op, k).Ok?
    ensures Agrees(ExecSeq(c, EmitOp(op, k).value.code, env, fuel), Eval(c, op, env.regs, fuel), env, k)
    decreases fuel, op, 0
  {
    var ss := k;
    var sv := op.saveValues;
    var b := EmitOp(op.op, k + 1).value;
    var env1 := env.(slots := env.slots[ss := env.regs.pos]);
    var tail := Opt(sv, [WhenNot(TmpSet, SetResult(NilLit))]) + [Unless(TmpSet, [Do(SetTmp(TrueLit)), Do(RestorePos(ss))])];
    assert OptionalCode(ss, b.code, sv) == [Do(SavePos(ss))] + (b.code + tail);
    FrameSave(env.slots, k, env.regs.pos, k);
    ExecCons(c, Do(SavePos(ss)), b.code + tail, env, fuel);
    ExecAppend(c, b.code, tail, env1, fuel);
    EmitCorrect(c, op.op, k + 1, env1, fuel);
    var f := ExecSeq(c, b.code, env1, fuel);
    if f.Next? {
      FrameWeaken(env1.slots, f.env.slots, k + 1, k);
      FrameTrans(env.slots, env1.slots, f.env.slots, k);
      OptionalTail(c, ss, sv, f.env, env.regs.pos, fuel);
    }
  }

  /** The lines written after the operand inside the greedy loop. */
  lemma StarTail(c: Ctx, sv: bool, e: Env, fuel: nat)
    ensures ExecSeq(c, Opt(sv, [When(TmpSet, PushResult)]) + [WhenNot(TmpSet, Break)], e, fuel)
         == if Truthy(e.regs.tmp) then Next(e.(regs := Pushed(e.regs, sv))) else Broke(e)
  {
    var e2 := e.(regs := if Truthy(e.regs.tmp) then Pushed(e.regs, sv) else e.regs);
    if sv {
      ExecCons(c, When(TmpSet, PushResult), [WhenNot(TmpSet, Break)], e, fuel);
    } else {
      assert Opt(sv, [When(TmpSet, PushResult)]) + [WhenNot(TmpSet, Break)] == [WhenNot(TmpSet, Break)];
    }
    ExecSingle(c, WhenNot(TmpSet, Break), e2, fuel);
  }

  /** One iteration of the greedy loop: the operand, then the collection
      of its value and the exit test. */
  lemma StarBodyCorrect(c: Ctx, body: Op, k: nat, sv: bool, env: Env, fuel: nat)
    requires EmitOp(body, k).Ok?
    ensures var f := ExecSeq(c, StarLoop(EmitOp(body, k).value.code, sv).body, env, fuel);
            var o := Eval(c, body, env.regs, fuel);
            && (o.Stuck? ==> f.Stuck?)
            && (o.OutOfFuel? ==> f.OutOfFuel?)
            && (o.Done? ==> && (f.Next? <==> Truthy(o.regs.tmp))
                            && (f.Broke? <==> !Truthy(o.regs.tmp))
                            && f.env.regs == (if Truthy(o.regs.tmp) then Pushed(o.regs, sv) else o.regs)
                            && Frame(env.slots, f.env.slots, k))
    decreases fuel, body, 2
  {
    var b := EmitOp(body, k).value;
    var tail := Opt(sv, [When(TmpSet, PushResult)]) + [WhenNot(TmpSet, Break)];
    assert StarLoop(b.code, sv).body == b.code + tail;
    ExecAppend(c, b.code, tail, env, fuel);
    EmitCorrect(c, body, k, env, fuel);
    var f := ExecSeq(c, b.code, env, fuel);
    if f.Next? {
      StarTail(c, sv, f.env, fuel);
    }
  }

  /** The greedy loop of (0,*) and (1,*) has the effect of EvalStar. */
  lemma StarLoopCorrect(c: Ctx, body: Op, k: nat, sv: bool, env: Env, fuel: nat)
    requires EmitOp(body, k).Ok?
    ensures Agrees(ExecStmt(c, StarLoop(EmitOp(body, k).value.code, sv), env, fuel),
                   EvalStar(c, body, sv, env.regs, fuel), env, k)
    decreases fuel, body, 0
  {
    if fuel > 0 {
      var loop := StarLoop(EmitOp(body, k).value.code, sv);
      LoopStep(c, PlainLoop, loop.body, env, fuel);
      StarBodyCorrect(c, body, k, sv, env, fuel - 1);
      var f := ExecSeq(c, loop.body, env, fuel - 1);
      if f.Next? {
        StarLoopCorrect(c, body, k, sv, f.env, fuel - 1);
        var g := ExecStmt(c, loop, f.env, fuel - 1);
        if g.Next? {
          FrameTrans(env.slots, f.env.slots, g.env.slots, k);
        }
      }
    }
  }

  /** `_ary = []` when values are collected, then the rest. */
  lemma ClearFirst(c: Ctx, sv: bool, rest: seq<Stmt>, env: Env, fuel: nat)
    ensures ExecSeq(c, Opt(sv, [Do(ClearAry)]) + rest, env, fuel)
         == ExecSeq(c, rest, if sv then env.(regs := env.regs.(ary := [])) else env, fuel)
  {
    if sv {
      ExecCons(c, Do(ClearAry), rest, env, fuel);
    } else {
      assert Opt(sv, [Do(ClearAry)]) + rest == rest;
    }
  }

  /** `_ary << @result` when values are collected, then the rest. */
  lemma PushFirst(c: Ctx, sv: bool, rest: seq<Stmt>, env: Env, fuel: nat)
    ensures ExecSeq(c, Opt(sv, [Do(PushResult)]) + rest, env, fuel)
         == ExecSeq(c, rest, env.(regs := Pushed(env.regs, sv)), fuel)
  {
    if sv {
      ExecCons(c, Do(PushResult), rest, env, fuel);
    } else {
      assert Opt(sv, [Do(PushResult)]) + rest == rest;
    }
  }

  lemma StarEndCorrect(c: Ctx, sv: bool, env: Env, fuel: nat)
    ensures ExecSeq(c, StarEnd(sv), env, fuel) == Next(env.(regs := Collected(env.regs, sv)))
  {
    var e2 := env.(regs := env.regs.(tmp := True));
    ExecCons(c, Do(SetTmp(TrueLit)), Opt(sv, [Do(SetResult(AryLocal))]), env, fuel);
    if sv {
      ExecSingle(c, Do(SetResult(AryLocal)), e2, fuel);
    }
  }

  /** The greedy loop followed by its closing lines. */
  lemma LoopThenEnd(c: Ctx, body: Op, k: nat, sv: bool, env: Env, fuel: nat)
    requires EmitOp(body, k).Ok?
    ensures Agrees(ExecSeq(c, [StarLoop(EmitOp(body, k).value.code, sv)] + StarEnd(sv), env, fuel),
                   (var o := EvalStar(c, body, sv, env.regs, fuel); if o.Done? then Done(Collected(o.regs, sv)) else o),
                   env, k)
    decreases fuel, body, 1
  {
    var loop := StarLoop(EmitOp(body, k).value.code, sv);
    ExecCons(c, loop, StarEnd(sv), env, fuel);
    StarLoopCorrect(c, body, k, sv, env, fuel);
    var f := ExecStmt(c, loop, env, fuel);
    if f.Next? {
      StarEndCorrect(c, sv, f.env, fuel);
    }
  }

  lemma StarCorrect(c: Ctx, body: Op, sv: bool, k: nat, env: Env, fuel: nat)
    requires EmitOp(Multiple(body, 0, None, sv), k).Ok?
    ensures Agrees(ExecSeq(c, EmitOp(Multiple(body, 0, None, sv), k).value.code, env, fuel),
                   Eval(c, Multiple(body, 0, None, sv), env.regs, fuel), env, k)
    decreases fuel, Multiple(body, 0, None, sv), 0
  {
    var b := EmitOp(body, k + 1).value;
    var env1 := if sv then env.(regs := env.regs.(ary := [])) else env;
    ClearFirst(c, sv, [StarLoop(b.code, sv)] + StarEnd(sv), env, fuel);
    LoopThenEnd(c, body, k + 1, sv, env1, fuel);
    var f := ExecSeq(c, [StarLoop(b.code, sv)] + StarEnd(sv), env1, fuel);
    if f.Next? {
      FrameWeaken(env1.slots, f.env.slots, k + 1, k);
    }
  }

  /** After the first attempt of (1,*): on failure the position goes back
      to the savepoint, on success the greedy loop runs. */
  lemma PlusRestCorrect(c: Ctx, body: Op, j: nat, sv: bool, ss: nat, e: Env, start: nat, fuel: nat)
    requires EmitOp(body, j).Ok? && ss in e.slots && e.slots[ss] == start
    ensures Agrees(ExecSeq(c, [PlusRest(ss, EmitOp(body, j).value.code, sv)], e, fuel),
                   if !Truthy(e.regs.tmp) then Done(e.regs.(pos := start))
                   else (var more := EvalStar(c, body, sv, Pushed(e.regs, sv), fuel);
                         if !more.Done? then more else Done(Collected(more.regs, sv))),
                   e, j)
    decreases fuel, body, 2
  {
    var again := EmitOp(body, j).value;
    var rest := [StarLoop(again.code, sv)] + StarEnd(sv);
    ExecSingle(c, PlusRest(ss, again.code, sv), e, fuel);
    FrameRefl(e.slots, j);
    if Truthy(e.regs.tmp) {
      PushFirst(c, sv, rest, e, fuel);
      LoopThenEnd(c, body, j, sv, e.(regs := Pushed(e.regs, sv)), fuel);
    } else {
      ExecSingle(c, Do(RestorePos(ss)), e, fuel);
    }
  }

  /** The first attempt of (1,*) and what follows it, from the state just
      after the savepoint and `_ary = []`. */
  lemma PlusAttempt(c: Ctx, body: Op, sv: bool, k: nat, e: Env, start: nat, fuel: nat)
    requires EmitOp(body, k + 1).Ok? && EmitOp(body, EmitOp(body, k + 1).value.next).Ok?
    requires k in e.slots && e.slots[k] == start
    ensures var first := EmitOp(body, k + 1).value;
            var again := EmitOp(body, first.next).value;
            Agrees(ExecSeq(c, first.code + [PlusRest(k, again.code, sv)], e, fuel),
                   (var out := Eval(c, body, e.regs, fuel);
                    if !out.Done? then out
                    else if !Truthy(out.regs.tmp) then Done(out.regs.(pos := start))
                    else (var more := EvalStar(c, body, sv, Pushed(out.regs, sv), fuel);
                          if !more.Done? then more else Done(Collected(more.regs, sv)))),
                   e, k)
    decreases fuel, body, 3
  {
    var first := EmitOp(body, k + 1).value;
    var again := EmitOp(body, first.next).value;
    var rest := PlusRest(k, again.code, sv);
    ExecAppend(c, first.code, [rest], e, fuel);
    EmitCorrect(c, body, k + 1, e, fuel);
    var f := ExecSeq(c, first.code, e, fuel);
    if f.Next? {
      var e1 := f.env;
      FrameWeaken(e.slots, e1.slots, k + 1, k);
      PlusRestCorrect(c, body, first.next, sv, k, e1, start, fuel);
      var g := ExecSeq(c, [rest], e1, fuel);
      if g.Next? {
        FrameWeaken(e1.slots, g.env.slots, first.next, k);
        FrameTrans(e.slots, e1.slots, g.env.slots, k);
      }
    }
  }

  lemma PlusCorrect(c: Ctx, body: Op, sv: bool, k: nat, env: Env, fuel: nat)
    requires EmitOp(Multiple(body, 1, None, sv), k).Ok?
    ensures Agrees(ExecSeq(c, EmitOp(Multiple(body, 1, None, sv), k).value.code, env, fuel),
                   Eval(c, Multiple(body, 1, None, sv), env.regs, fuel), env, k)
    decreases fuel, Multiple(body, 1, None, sv), 0
  {
    var env1 := env.(slots := env.slots[k := env.regs.pos]);
    var env2 := if sv then env1.(regs := env1.regs.(ary := [])) else env1;
    PlusPrologue(c, body, sv, k, env, fuel);
    PlusAttempt(c, body, sv, k, env2, env.regs.pos, fuel);
    FrameSave(env.slots, k, env.regs.pos, k);
    var first := EmitOp(body, k + 1).value;
    var x := ExecSeq(c, first.code + [PlusRest(k, EmitOp(body, first.next).value.code, sv)], env2, fuel);
    if x.Next? {
      FrameTrans(env.slots, env2.slots, x.env.slots, k);
    }
  }

  /** (1,*) first saves the position and, when collecting, clears `_ary`. */
  lemma PlusPrologue(c: Ctx, body: Op, sv: bool, k: nat, env: Env, fuel: nat)
    requires EmitOp(Multiple(body, 1, None, sv), k).Ok?
    ensures var first := EmitOp(body, k + 1).value;
            var again := EmitOp(body, first.next).value;
            var env1 := env.(slots := env.slots[k := env.regs.pos]);
            ExecSeq(c, EmitOp(Multiple(body, 1, None, sv), k).value.code, env, fuel)
            == ExecSeq(c, first.code + [PlusRest(k, again.code, sv)], if sv then env1.(regs := env1.regs.(ary := [])) else env1, fuel)
  {
    var first := EmitOp(body, k + 1).value;
    var again := EmitOp(body, first.next).value;
    assert EmitOp(Multiple(body, 1, None, sv), k).value.code == PlusCode(k, first.code, again.code, sv);
    PlusCodeRuns(c, k, first.code, again.code, sv, env, fuel);
  }

  lemma PlusCodeRuns(c: Ctx, ss: nat, first: seq<Stmt>, again: seq<Stmt>, sv: bool, env: Env, fuel: nat)
    ensures var env1 := env.(slots := env.slots[ss := env.regs.pos]);
            ExecSeq(c, PlusCode(ss, first, again, sv), env, fuel)
            == ExecSeq(c, first + [PlusRest(ss, again, sv)], if sv then env1.(regs := env1.regs.(ary := [])) else env1, fuel)
  {
    var rest := first + [PlusRest(ss, again, sv)];
    assert PlusCode(ss, first, again, sv) == [Do(SavePos(ss))] + (Opt(sv, [Do(ClearAry)]) + rest);
    var env1 := env.(slots := env.slots[ss := env.regs.pos]);
    ExecCons(c, Do(SavePos(ss)), Opt(sv, [Do(ClearAry)]) + rest, env, fuel);
    assert ExecStmt(c, Do(SavePos(ss)), env, fuel) == Next(env1);
    ClearFirst(c, sv, rest, env1, fuel);
  }

  lemma CountTail(c: Ctx, max: Option<nat>, e: Env, fuel: nat)
    ensures ExecSeq(c, [CountCheck(max)], e, fuel)
         == if !Truthy(e.regs.tmp) then Broke(e)
            else if max.None? then Flow.Stuck
            else if e.regs.count + 1 == max.value then Broke(e.(regs := e.regs.(count := e.regs.count + 1)))
            else Next(e.(regs := e.regs.(count := e.regs.count + 1)))
  {
    var e2 := e.(regs := e.regs.(count := e.regs.count + 1));
    ExecSingle(c, CountCheck(max), e, fuel);
    ExecCons(c, Do(IncCount), [When(CountIs(max), Break)], e, fuel);
    ExecSingle(c, When(CountIs(max), Break), e2, fuel);
    ExecSingle(c, Do(Break), e, fuel);
  }

  /** The loop of a bounded repetition has the effect of EvalCounted. */
  lemma CountedLoopCorrect(c: Ctx, body: Op, k: nat, max: Option<nat>, env: Env, fuel: nat)
    requires EmitOp(body, k).Ok?
    ensures Agrees(ExecStmt(c, Loop(PlainLoop, EmitOp(body, k).value.code + [CountCheck(max)]), env, fuel),
                   EvalCounted(c, body, max, env.regs, fuel), env, k)
    decreases fuel, body, 0
  {
    if fuel > 0 {
      var b := EmitOp(body, k).value;
      var loop := Loop(PlainLoop, b.code + [CountCheck(max)]);
      CountedLoopStep(c, b.code, max, env, fuel);
      EmitCorrect(c, body, k, env, fuel - 1);
      var f := ExecSeq(c, b.code, env, fuel - 1);
      var o := Eval(c, body, env.regs, fuel - 1);
      if f.Next? {
        var e1 := f.env;
        var e2 := e1.(regs := e1.regs.(count := e1.regs.count + 1));
        assert o == Done(e1.regs);
        if Truthy(e1.regs.tmp) && max.Some? && e2.regs.count != max.value {
          assert EvalCounted(c, body, max, env.regs, fuel) == EvalCounted(c, body, max, e2.regs, fuel - 1);
          CountedLoopCorrect(c, body, k, max, e2, fuel - 1);
          var g := ExecStmt(c, loop, e2, fuel - 1);
          if g.Next? {
            FrameTrans(env.slots, e2.slots, g.env.slots, k);
          }
        }
      } else {
        assert !f.Broke?;
        assert EvalCounted(c, body, max, env.regs, fuel) == o;
      }
    }
  }

  /** One iteration of the loop of a bounded repetition, whatever its body. */
  lemma CountedLoopStep(c: Ctx, code: seq<Stmt>, max: Option<nat>, env: Env, fuel: nat)
    requires fuel > 0
    ensures var loop := Loop(PlainLoop, code + [CountCheck(max)]);
            var f := ExecSeq(c, code, env, fuel - 1);
            ExecStmt(c, loop, env, fuel)
            == if !f.Next? then (if f.Broke? then Next(f.env) else f)
               else
                 var e2 := f.env.(regs := f.env.regs.(count := f.env.regs.count + 1));
                 if !Truthy(f.env.regs.tmp) then Next(f.env)
                 else if max.None? then Flow.Stuck
                 else if e2.regs.count == max.value then Next(e2)
                 else ExecStmt(c, loop, e2, fuel - 1)
  {
    LoopStep(c, PlainLoop, code + [CountCheck(max)], env, fuel);
    ExecAppend(c, code, [CountCheck(max)], env, fuel - 1);
    var f := ExecSeq(c, code, env, fuel - 1);
    if f.Next? {
      CountTail(c, max, f.env, fuel - 1);
    }
  }

  /** The verdict written after the loop of a bounded repetition. */
  lemma VerdictTail(c: Ctx, min: nat, ss: nat, e: Env, start: nat, fuel: nat)
    requires ss in e.slots && e.slots[ss] == start
    ensures ExecSeq(c, [If(CountAtLeast(min), [Do(SetTmp(TrueLit))], [Do(RestorePos(ss)), Do(SetTmp(NilLit))])], e, fuel)
         == Next(e.(regs := if e.regs.count >= min then e.regs.(tmp := True) else e.regs.(pos := start, tmp := Nil)))
  {
    ExecSingle(c, If(CountAtLeast(min), [Do(SetTmp(TrueLit))], [Do(RestorePos(ss)), Do(SetTmp(NilLit))]), e, fuel);
    ExecSingle(c, Do(SetTmp(TrueLit)), e, fuel);
    ExecCons(c, Do(RestorePos(ss)), [Do(SetTmp(NilLit))], e, fuel);
    ExecSingle(c, Do(SetTmp(NilLit)), e.(regs := e.regs.(pos := start)), fuel);
  }

  lemma CountedCorrect(c: Ctx, op: Op, k: nat, env: Env, fuel: nat)
    requires op.Multiple? && !(op.min == 0 && op.max == Some(1))
    requires !(op.min == 0 && op.max.None?) && !(op.min == 1 && op.max.None?)
    requires EmitOp(op, k).Ok?
    ensures Agrees(ExecSeq(c, EmitOp(op, k).value.code, env, fuel), Eval(c, op, env.regs, fuel), env, k)
    decreases fuel, op, 0
  {
    var ss := k;
    var b := EmitOp(op.op, k + 1).value;
    var loop := Loop(PlainLoop, b.code + [CountCheck(op.max)]);
    var verdict := If(CountAtLeast(op.min), [Do(SetTmp(TrueLit))], [Do(RestorePos(ss)), Do(SetTmp(NilLit))]);
    assert CountedCode(ss, b.code, op.min, op.max) == [Do(SavePos(ss))] + ([Do(ResetCount)] + ([loop] + [verdict]));
    var env1 := env.(slots := env.slots[ss := env.regs.pos]);
    var env2 := env1.(regs := env1.regs.(count := 0));
    FrameSave(env.slots, k, env.regs.pos, k);
    ExecCons(c, Do(SavePos(ss)), [Do(ResetCount)] + ([loop] + [verdict]), env, fuel);
    ExecCons(c, Do(ResetCount), [loop] + [verdict], env1, fuel);
    ExecCons(c, loop, [verdict], env2, fuel);
    CountedLoopCorrect(c, op.op, k + 1, op.max, env2, fuel);
    var f := ExecStmt(c, loop, env2, fuel);
    if f.Next? {
      FrameWeaken(env2.slots, f.env.slots, k + 1, k);
      FrameTrans(env.slots, env2.slots, f.env.slots, k);
      VerdictTail(c, op.min, ss, f.env, env.regs.pos, fuel);
    }
  }

  /** What a predicate evaluates is run as EvalPredicateBody says. */
  lemma PredicateBodyCorrect(c: Ctx, op: Op, k: nat, env: Env, fuel: nat)
    requires PredicateBody(op, k).Ok?
    ensures Agrees(ExecSeq(c, PredicateBody(op, k).value.code, env, fuel),
                   EvalPredicateBody(c, op, env.regs, fuel), env, k)
    decreases fuel, op, 2
  {
    if op.Action? {
      SetTmpCorrect(c, HostCode(op.action), env, fuel, k);
    } else {
      EmitCorrect(c, op, k, env, fuel);
    }
  }

  /** The savepoint, then what the predicate evaluates: the state before
      the predicate's closing lines. */
  lemma PredicateOpening(c: Ctx, op: Op, k: nat, tail: seq<Stmt>, env: Env, fuel: nat) returns (e: Env)
    requires PredicateBody(op, k + 1).Ok?
    ensures var b := PredicateBody(op, k + 1).value;
            var f := ExecSeq(c, [Do(SavePos(k))] + (b.code + tail), env, fuel);
            var o := EvalPredicateBody(c, op, env.regs, fuel);
            && (o.Stuck? ==> f.Stuck?) && (o.OutOfFuel? ==> f.OutOfFuel?)
            && (o.Done? ==> && e.regs == o.regs && Frame(env.slots, e.slots, k)
                            && k in e.slots && e.slots[k] == env.regs.pos
                            && f == ExecSeq(c, tail, e, fuel))
    decreases fuel, op, 3
  {
    var ss := k;
    var b := PredicateBody(op, k + 1).value;
    var env1 := env.(slots := env.slots[ss := env.regs.pos]);
    FrameSave(env.slots, k, env.regs.pos, k);
    ExecCons(c, Do(SavePos(ss)), b.code + tail, env, fuel);
    ExecAppend(c, b.code, tail, env1, fuel);
    PredicateBodyCorrect(c, op, k + 1, env1, fuel);
    var f := ExecSeq(c, b.code, env1, fuel);
    e := env1;
    if f.Next? {
      e := f.env;
      FrameWeaken(env1.slots, e.slots, k + 1, k);
      FrameTrans(env.slots, env1.slots, e.slots, k);
    }
  }

  lemma AndCorrect(c: Ctx, op: Op, k: nat, env: Env, fuel: nat)
    requires op.AndPredicate? && EmitOp(op, k).Ok?
    ensures Agrees(ExecSeq(c, EmitOp(op, k).value.code, env, fuel), Eval(c, op, env.regs, fuel), env, k)
    decreases fuel, op, 0
  {
    var ss := k;
    var b := PredicateBody(op.op, k + 1).value;
    assert EmitOp(op, k).value.code == [Do(SavePos(ss))] + (b.code + [Do(RestorePos(ss))]);
    var e := PredicateOpening(c, op.op, k, [Do(RestorePos(ss))], env, fuel);
    var o := EvalPredicateBody(c, op.op, env.regs, fuel);
    if o.Done? {
      ExecSingle(c, Do(RestorePos(ss)), e, fuel);
    }
  }

  lemma NotCorrect(c: Ctx, op: Op, k: nat, env: Env, fuel: nat)
    requires op.NotPredicate? && EmitOp(op, k).Ok?
    ensures Agrees(ExecSeq(c, EmitOp(op, k).value.code, env, fuel), Eval(c, op, env.regs, fuel), env, k)
    decreases fuel, op, 0
  {
    var ss := k;
    var b := PredicateBody(op.op, k + 1).value;
    var tail := [Do(SetTmp(Negation)), Do(RestorePos(ss))];
    assert EmitOp(op, k).value.code == [Do(SavePos(ss))] + (b.code + tail);
    var e := PredicateOpening(c, op.op, k, tail, env, fuel);
    var o := EvalPredicateBody(c, op.op, env.regs, fuel);
    if o.Done? {
      var e2 := e.(regs := e.regs.(tmp := if Truthy(e.regs.tmp) then Nil else True));
      ExecCons(c, Do(SetTmp(Negation)), [Do(RestorePos(ss))], e, fuel);
      ExecSingle(c, Do(RestorePos(ss)), e2, fuel);
    }
  }

  lemma TagCorrect(c: Ctx, op: Op, k: nat, env: Env, fuel: nat)
    requires op.Tag? && EmitOp(op, k).Ok?
    ensures Agrees(ExecSeq(c, EmitOp(op, k).value.code, env, fuel), Eval(c, op, env.regs, fuel), env, k)
    decreases fuel, op, 0
  {
    var b := EmitOp(op.op, k).value;
    EmitCorrect(c, op.op, k, env, fuel);
    if op.tagName != "" {
      ExecAppend(c, b.code, [Do(SetTag(op.tagName))], env, fuel);
      var f := ExecSeq(c, b.code, env, fuel);
      if f.Next? {
        ExecSingle(c, Do(SetTag(op.tagName)), f.env, fuel);
      }
    }
  }

  lemma CollectCorrect(c: Ctx, op: Op, k: nat, env: Env, fuel: nat)
    requires op.Collect? && EmitOp(op, k).Ok?
    ensures Agrees(ExecSeq(c, EmitOp(op, k).value.code, env, fuel), Eval(c, op, env.regs, fuel), env, k)
    decreases fuel, op, 0
  {
    var b := EmitOp(op.op, k).value;
    var take := If(TmpSet, [Do(TakeText)], []);
    assert EmitOp(op, k).value.code == [Do(MarkText)] + (b.code + [take]);
    var env1 := env.(regs := env.regs.(textStart := env.regs.pos));
    ExecCons(c, Do(MarkText), b.code + [take], env, fuel);
    ExecAppend(c, b.code, [take], env1, fuel);
    EmitCorrect(c, op.op, k, env1, fuel);
    var f := ExecSeq(c, b.code, env1, fuel);
    if f.Next? {
      ExecSingle(c, take, f.env, fuel);
      ExecSingle(c, Do(TakeText), f.env, fuel);
    }
  }
}
