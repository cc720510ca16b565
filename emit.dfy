/** `output_op` as a function: the statements written for one operator,
    given the savepoint counter on entry, and the counter on exit
    (lib/kpeg/code_generator.rb:37-236). */
module Emit {

  import opened Values
  import opened Naming
  import opened Grammar
  import opened Ruby

  /** Statements written and the savepoint counter afterwards. */
  datatype Emitted = Emitted(code: seq<Stmt>, next: nat)

  /** `if flag` around a group of emitted lines. */
  function Opt(flag: bool, s: seq<Stmt>): seq<Stmt> {
    if flag then s else []
  }

  /** CharRange (lines 49-65). */
  function RangeCode(ss: nat, left: nat, right: nat): seq<Stmt> {
    [ Do(SavePos(ss)),
      Do(SetTmp(GetByteCall)),
      If(TmpSet, [Unless(TmpBetween(left, right), [Do(RestorePos(ss)), Do(SetTmp(NilLit))])], []) ]
  }

  /** One alternative of a Choice (lines 74-80). */
  function ChoiceArm(code: seq<Stmt>, ss: nat, last: bool): seq<Stmt> {
    code + [When(TmpSet, Break), Do(RestorePos(ss))] + Opt(last, [Do(Break)])
  }

  /** One element of a Sequence (lines 164-176). */
  function SequenceArm(code: seq<Stmt>, ss: nat, last: bool): seq<Stmt> {
    if last then code + [Unless(TmpSet, [Do(RestorePos(ss))]), Do(Break)]
    else code + [Unless(TmpSet, [Do(RestorePos(ss)), Do(Break)])]
  }

  /** Repetition (0,1) (lines 86-94). */
  function OptionalCode(ss: nat, body: seq<Stmt>, sv: bool): seq<Stmt> {
    [Do(SavePos(ss))] + body + Opt(sv, [WhenNot(TmpSet, SetResult(NilLit))])
    + [Unless(TmpSet, [Do(SetTmp(TrueLit)), Do(RestorePos(ss))])]
  }

  /** The greedy loop shared by (0,*) and (1,*) (lines 100-106, 123-130). */
  function StarLoop(body: seq<Stmt>, sv: bool): Stmt {
    Loop(PlainLoop, body + Opt(sv, [When(TmpSet, PushResult)]) + [WhenNot(TmpSet, Break)])
  }

  /** Repetition (0,*) (lines 96-111). */
  function StarCode(body: seq<Stmt>, sv: bool): seq<Stmt> {
    Opt(sv, [Do(ClearAry)]) + ([StarLoop(body, sv)] + StarEnd(sv))
  }

  /** After the greedy loop: `_tmp = true`, then `@result = _ary` when
      values are collected. */
  function StarEnd(sv: bool): seq<Stmt> {
    [Do(SetTmp(TrueLit))] + Opt(sv, [Do(SetResult(AryLocal))])
  }

  /** Repetition (1,*) (lines 114-137): the operand is written twice, once
      for the first attempt and once inside the loop. */
  function PlusCode(ss: nat, first: seq<Stmt>, again: seq<Stmt>, sv: bool): seq<Stmt> {
    [Do(SavePos(ss))] + Opt(sv, [Do(ClearAry)]) + first + [PlusRest(ss, again, sv)]
  }

  /** What (1,*) does after the first attempt: collect and loop, or go back
      to the savepoint. */
  function PlusRest(ss: nat, again: seq<Stmt>, sv: bool): Stmt {
    If(TmpSet, Opt(sv, [Do(PushResult)]) + ([StarLoop(again, sv)] + StarEnd(sv)), [Do(RestorePos(ss))])
  }

  /** Bounded repetition (lines 139-156). */
  function CountedCode(ss: nat, body: seq<Stmt>, min: nat, max: Option<nat>): seq<Stmt> {
    [ Do(SavePos(ss)),
      Do(ResetCount),
      Loop(PlainLoop, body + [CountCheck(max)]),
      If(CountAtLeast(min), [Do(SetTmp(TrueLit))], [Do(RestorePos(ss)), Do(SetTmp(NilLit))]) ]
  }

  /** The test at the end of each iteration of a bounded repetition. */
  function CountCheck(max: Option<nat>): Stmt {
    If(TmpSet, [Do(IncCount), When(CountIs(max), Break)], [Do(Break)])
  }

  /** What a predicate evaluates: inline action code, or its operand. */
  function PredicateBody(op: Op, k: nat): (r: Result<Emitted>)
    ensures r.Ok? ==> k <= r.value.next
    decreases op, 1
  {
    if op.Action? then Ok(Emitted([Do(SetTmp(HostCode(op.action)))], k))
    else EmitOp(op, k)
  }

  /** The statements for `op` when the savepoint counter is `k`. Every
      savepoint the operator allocates is numbered from `k` on, so the
      counter never goes down. */
  function EmitOp(op: Op, k: nat): (r: Result<Emitted>)
    ensures r.Ok? ==> k <= r.value.next
    decreases op, 0
  {
    match op
    case Dot => Ok(Emitted([Do(SetTmp(GetByteCall))], k))
    case LiteralString(lit) => Ok(Emitted([Do(SetTmp(MatchStringCall(lit)))], k))
    case LiteralRegexp(p) => Ok(Emitted([Do(SetTmp(ScanCall(p)))], k))
    case CharRange(s, f) =>
      if |s| == 1 && |f| == 1 then Ok(Emitted(RangeCode(k, s[0] as nat, f[0] as nat), k + 1))
      else Err("Unsupported char range")
    case Choice(ops) =>
      var ss := k;
      var arms :- ChoiceArms(ops, ss, k + 1);
      Ok(Emitted([Do(SavePos(ss)), Loop(ChoiceLoop, arms.code)], arms.next))
    case Multiple(body, min, max, sv) =>
      var ss := k;
      if min == 0 && max == Some(1) then
        var b :- EmitOp(body, k + 1);
        Ok(Emitted(OptionalCode(ss, b.code, sv), b.next))
      else if min == 0 && max.None? then
        var b :- EmitOp(body, k + 1);
        Ok(Emitted(StarCode(b.code, sv), b.next))
      else if min == 1 && max.None? then
        var first :- EmitOp(body, k + 1);
        var again :- EmitOp(body, first.next);
        Ok(Emitted(PlusCode(ss, first.code, again.code, sv), again.next))
      else
        var b :- EmitOp(body, k + 1);
        Ok(Emitted(CountedCode(ss, b.code, min, max), b.next))
    case Sequence(ops) =>
      var ss := k;
      var arms :- SequenceArms(ops, ss, k + 1);
      Ok(Emitted([Do(SavePos(ss)), Loop(SequenceLoop, arms.code)], arms.next))
    case AndPredicate(inner) =>
      var ss := k;
      var b :- PredicateBody(inner, k + 1);
      Ok(Emitted([Do(SavePos(ss))] + b.code + [Do(RestorePos(ss))], b.next))
    case NotPredicate(inner) =>
      var ss := k;
      var b :- PredicateBody(inner, k + 1);
      Ok(Emitted([Do(SavePos(ss))] + b.code + [Do(SetTmp(Negation)), Do(RestorePos(ss))], b.next))
    case RuleReference(name) => Ok(Emitted([Do(SetTmp(ApplyCall(MethodName(name))))], k))
    case InvokeRule(name, args) => Ok(Emitted([Do(SetTmp(InvokeCall(MethodName(name), args)))], k))
    case ForeignInvokeRule(g, name, args) =>
      Ok(Emitted([Do(SetTmp(ForeignCall(g, MethodName(name), args)))], k))
    case Tag(inner, name) =>
      var b :- EmitOp(inner, k);
      Ok(Emitted(if name != "" then b.code + [Do(SetTag(name))] else b.code, b.next))
    case Action(code) => Ok(Emitted([Do(SetResult(HostCode(code))), Do(SetTmp(TrueLit))], k))
    case Collect(inner) =>
      var b :- EmitOp(inner, k);
      Ok(Emitted([Do(MarkText)] + b.code + [If(TmpSet, [Do(TakeText)], [])], b.next))
  }

  /** The alternatives of a Choice, in order; the last one ends with an
      unconditional `break`. */
  function ChoiceArms(ops: seq<Op>, ss: nat, k: nat): (r: Result<Emitted>)
    ensures r.Ok? ==> k <= r.value.next
    decreases ops
  {
    if ops == [] then Ok(Emitted([], k))
    else
      var a :- EmitOp(ops[0], k);
      var rest :- ChoiceArms(ops[1..], ss, a.next);
      Ok(Emitted(ChoiceArm(a.code, ss, |ops| == 1) + rest.code, rest.next))
  }

  /** The elements of a Sequence, in order. */
  function SequenceArms(ops: seq<Op>, ss: nat, k: nat): (r: Result<Emitted>)
    ensures r.Ok? ==> k <= r.value.next
    decreases ops
  {
    if ops == [] then Ok(Emitted([], k))
    else
      var a :- EmitOp(ops[0], k);
      var rest :- SequenceArms(ops[1..], ss, a.next);
      Ok(Emitted(SequenceArm(a.code, ss, |ops| == 1) + rest.code, rest.next))
  }
}
