/** The generator object (lib/kpeg/code_generator.rb:5-345): its
    savepoint counter, the buffer-appending `output_op`, and `output` with
    its cache. Each method is proved to write exactly the text of the
    corresponding function of the modules Emit and Assembly. */
module Generator {

  import opened Values
  import opened Strings
  import opened Naming
  import opened Grammar
  import opened Ruby
  import opened Emit
  import opened Assembly

  // ---------------------------------------------------------------------
  // Text written line by line is the text of the statements

  /** The text of `s` when `flag` holds: a line written under an
      `if op.save_values` or for the last alternative only. */
  function TextIf(flag: bool, s: Stmt): string {
    if flag then StmtText(s) else ""
  }

  const IfTmpOpen: string := "if " + CondText(TmpSet) + "\n"
  const ElseLine: string := "else\n"
  const EndLine: string := "end\n"

  lemma One(s: Stmt)
    ensures StmtsText([s]) == StmtText(s)
  {
    assert [s][1..] == [];
  }

  lemma OptText(flag: bool, s: Stmt)
    ensures StmtsText(Opt(flag, [s])) == TextIf(flag, s)
  {
    if flag {
      One(s);
    }
  }

  lemma Two(a: Stmt, b: Stmt)
    ensures StmtsText([a, b]) == StmtText(a) + StmtText(b)
  {
    StmtsTextAppend([a], [b]);
    assert [a] + [b] == [a, b];
    One(a);
    One(b);
  }

  /** A statement after an operand's code. */
  lemma CodeThen(code: seq<Stmt>, s: Stmt)
    ensures StmtsText(code + [s]) == StmtsText(code) + StmtText(s)
  {
    StmtsTextAppend(code, [s]);
    One(s);
  }

  /** A statement before an operand's code. */
  lemma ThenCode(s: Stmt, code: seq<Stmt>)
    ensures StmtsText([s] + code) == StmtText(s) + StmtsText(code)
  {
    StmtsTextAppend([s], code);
    One(s);
  }

  // Regrouping of concatenations; each is a fact about strings alone.

  lemma Group2(x: string, a: string, b: string)
    ensures x + (a + b) == x + a + b
  {
  }

  lemma Group3(x: string, a: string, b: string, c: string)
    ensures x + (a + b + c) == x + a + b + c
  {
  }

  lemma Group4(x: string, a: string, b: string, c: string, d: string)
    ensures x + (a + b + c + d) == x + a + b + c + d
  {
  }

  lemma GroupLoop(x: string, o: string, b: string, s: string, c: string, y: string)
    ensures x + (o + (b + s) + c) + y == x + o + b + s + c + y
  {
  }

  lemma GroupStar(x: string, lo: string, b: string, p: string, w: string, lc: string, t: string, r: string)
    ensures x + (lo + (b + p + w) + lc + (t + r)) == x + lo + b + p + w + lc + t + r
  {
  }

  lemma GroupOptional(x: string, a: string, b: string, o: string, u: string)
    ensures x + (a + b + o + u) == x + a + b + o + u
  {
  }

  lemma GroupPlus(x: string, sp: string, ca: string, f: string, io: string, pr: string, st: string,
                  el: string, rp: string, en: string)
    ensures x + (sp + ca + f + (io + (pr + st) + (el + rp) + en)) == x + sp + ca + f + io + pr + st + el + rp + en
  {
  }

  lemma GroupRoutine(x: string, h: string, c: string, w: string, t: string, e: string)
    ensures x + (h + (c + w) + t + e) == x + h + c + w + t + e
  {
  }

  lemma GroupArm(x: string, c: string, w: string, p: string, b: string, rest: string)
    ensures x + ((c + (w + p) + b) + rest) == x + c + w + p + b + rest
  {
  }

  // Text written line by line is the text of the statements.

  lemma LeafWritten(buf: string, s: Stmt)
    ensures buf + StmtsText([s]) == buf + StmtText(s)
  {
    One(s);
  }

  lemma ActionWritten(buf: string, a: Stmt, b: Stmt)
    ensures buf + StmtsText([a, b]) == buf + StmtText(a) + StmtText(b)
  {
    Two(a, b);
  }

  lemma ThreeWritten(buf: string, a: Stmt, b: Stmt, c: Stmt)
    ensures buf + StmtsText([a, b, c]) == buf + StmtText(a) + StmtText(b) + StmtText(c)
  {
    assert [a, b, c] == [a, b] + [c];
    StmtsTextAppend([a, b], [c]);
    Two(a, b);
    One(c);
    Group3(buf, StmtText(a), StmtText(b), StmtText(c));
  }

  /** Four statements written one after the other. */
  lemma FourWritten(buf: string, a: Stmt, b: Stmt, c: Stmt, d: Stmt)
    ensures buf + StmtsText([a, b, c, d]) == buf + StmtText(a) + StmtText(b) + StmtText(c) + StmtText(d)
  {
    assert [a, b, c, d] == [a, b] + [c, d];
    StmtsTextAppend([a, b], [c, d]);
    Two(a, b);
    Two(c, d);
    Group4(buf, StmtText(a), StmtText(b), StmtText(c), StmtText(d));
  }

  lemma RangeWritten(buf: string, ss: nat, left: nat, right: nat)
    ensures buf + StmtsText(RangeCode(ss, left, right))
            == buf + StmtText(Do(SavePos(ss))) + StmtText(Do(SetTmp(GetByteCall)))
               + StmtText(If(TmpSet, [Unless(TmpBetween(left, right), [Do(RestorePos(ss)), Do(SetTmp(NilLit))])], []))
  {
    ThreeWritten(buf, Do(SavePos(ss)), Do(SetTmp(GetByteCall)),
                 If(TmpSet, [Unless(TmpBetween(left, right), [Do(RestorePos(ss)), Do(SetTmp(NilLit))])], []));
  }

  /** A savepoint and a loop over `arms`: the frame of Choice and Sequence. */
  lemma WrappedWritten(buf: string, k: LoopKind, ss: nat, arms: seq<Stmt>)
    ensures buf + StmtsText([Do(SavePos(ss)), Loop(k, arms)])
            == buf + StmtText(Do(SavePos(ss))) + LoopOpen(k) + StmtsText(arms) + LoopClose(k)
  {
    Two(Do(SavePos(ss)), Loop(k, arms));
    Group3(buf + StmtText(Do(SavePos(ss))), LoopOpen(k), StmtsText(arms), LoopClose(k));
  }

  lemma OptionalWritten(buf: string, ss: nat, body: seq<Stmt>, sv: bool)
    ensures buf + StmtsText(OptionalCode(ss, body, sv))
            == buf + StmtText(Do(SavePos(ss))) + StmtsText(body) + TextIf(sv, WhenNot(TmpSet, SetResult(NilLit)))
               + StmtText(Unless(TmpSet, [Do(SetTmp(TrueLit)), Do(RestorePos(ss))]))
  {
    var a, u := Do(SavePos(ss)), Unless(TmpSet, [Do(SetTmp(TrueLit)), Do(RestorePos(ss))]);
    var o := Opt(sv, [WhenNot(TmpSet, SetResult(NilLit))]);
    StmtsTextAppend([a] + body + o, [u]);
    StmtsTextAppend([a] + body, o);
    ThenCode(a, body);
    One(u);
    OptText(sv, WhenNot(TmpSet, SetResult(NilLit)));
    assert StmtsText(OptionalCode(ss, body, sv))
           == StmtText(a) + StmtsText(body) + TextIf(sv, WhenNot(TmpSet, SetResult(NilLit))) + StmtText(u);
    GroupOptional(buf, StmtText(a), StmtsText(body), TextIf(sv, WhenNot(TmpSet, SetResult(NilLit))), StmtText(u));
  }

  /** The greedy loop and what follows it. */
  lemma StarTailText(body: seq<Stmt>, sv: bool)
    ensures StmtsText([StarLoop(body, sv)] + StarEnd(sv))
            == LoopOpen(PlainLoop) + (StmtsText(body) + TextIf(sv, When(TmpSet, PushResult)) + StmtText(WhenNot(TmpSet, Break)))
               + LoopClose(PlainLoop) + (StmtText(Do(SetTmp(TrueLit))) + TextIf(sv, Do(SetResult(AryLocal))))
  {
    var p := Opt(sv, [When(TmpSet, PushResult)]);
    StmtsTextAppend(body + p, [WhenNot(TmpSet, Break)]);
    StmtsTextAppend(body, p);
    One(WhenNot(TmpSet, Break));
    OptText(sv, When(TmpSet, PushResult));
    assert StmtsText(body + p + [WhenNot(TmpSet, Break)])
           == StmtsText(body) + TextIf(sv, When(TmpSet, PushResult)) + StmtText(WhenNot(TmpSet, Break));
    ThenCode(StarLoop(body, sv), StarEnd(sv));
    ThenCode(Do(SetTmp(TrueLit)), Opt(sv, [Do(SetResult(AryLocal))]));
    OptText(sv, Do(SetResult(AryLocal)));
  }

  lemma StarWritten(buf: string, body: seq<Stmt>, sv: bool)
    ensures buf + StmtsText(StarCode(body, sv))
            == buf + TextIf(sv, Do(ClearAry)) + LoopOpen(PlainLoop) + StmtsText(body)
               + TextIf(sv, When(TmpSet, PushResult)) + StmtText(WhenNot(TmpSet, Break)) + LoopClose(PlainLoop)
               + StmtText(Do(SetTmp(TrueLit))) + TextIf(sv, Do(SetResult(AryLocal)))
  {
    StmtsTextAppend(Opt(sv, [Do(ClearAry)]), [StarLoop(body, sv)] + StarEnd(sv));
    OptText(sv, Do(ClearAry));
    StarTailText(body, sv);
    GroupStar(buf + TextIf(sv, Do(ClearAry)), LoopOpen(PlainLoop), StmtsText(body), TextIf(sv, When(TmpSet, PushResult)),
              StmtText(WhenNot(TmpSet, Break)), LoopClose(PlainLoop), StmtText(Do(SetTmp(TrueLit))),
              TextIf(sv, Do(SetResult(AryLocal))));
  }

  lemma PlusWritten(buf: string, ss: nat, first: seq<Stmt>, again: seq<Stmt>, sv: bool)
    ensures buf + StmtsText(PlusCode(ss, first, again, sv))
            == buf + StmtText(Do(SavePos(ss))) + TextIf(sv, Do(ClearAry)) + StmtsText(first)
               + IfTmpOpen + TextIf(sv, Do(PushResult))
               + LoopOpen(PlainLoop) + StmtsText(again) + TextIf(sv, When(TmpSet, PushResult))
               + StmtText(WhenNot(TmpSet, Break)) + LoopClose(PlainLoop)
               + StmtText(Do(SetTmp(TrueLit))) + TextIf(sv, Do(SetResult(AryLocal)))
               + ElseLine + StmtText(Do(RestorePos(ss))) + EndLine
  {
    var sp, ca := Do(SavePos(ss)), Opt(sv, [Do(ClearAry)]);
    var tail := [StarLoop(again, sv)] + StarEnd(sv);
    var thn := Opt(sv, [Do(PushResult)]) + tail;
    StmtsTextAppend([sp] + ca + first, [PlusRest(ss, again, sv)]);
    StmtsTextAppend([sp] + ca, first);
    ThenCode(sp, ca);
    One(PlusRest(ss, again, sv));
    OptText(sv, Do(ClearAry));
    One(Do(RestorePos(ss)));
    StmtsTextAppend(Opt(sv, [Do(PushResult)]), tail);
    OptText(sv, Do(PushResult));
    var st := StmtsText(tail);
    assert StmtText(PlusRest(ss, again, sv))
           == IfTmpOpen + (TextIf(sv, Do(PushResult)) + st) + (ElseLine + StmtText(Do(RestorePos(ss)))) + EndLine;
    GroupPlus(buf, StmtText(sp), TextIf(sv, Do(ClearAry)), StmtsText(first), IfTmpOpen, TextIf(sv, Do(PushResult)), st,
              ElseLine, StmtText(Do(RestorePos(ss))), EndLine);
    StarTailText(again, sv);
    var pre := buf + StmtText(sp) + TextIf(sv, Do(ClearAry)) + StmtsText(first) + IfTmpOpen + TextIf(sv, Do(PushResult));
    GroupStar(pre, LoopOpen(PlainLoop), StmtsText(again), TextIf(sv, When(TmpSet, PushResult)),
              StmtText(WhenNot(TmpSet, Break)), LoopClose(PlainLoop), StmtText(Do(SetTmp(TrueLit))),
              TextIf(sv, Do(SetResult(AryLocal))));
  }

  /** A loop whose body ends with one statement, written after `pre`. */
  lemma LoopThenWritten(pre: string, k: LoopKind, body: seq<Stmt>, s: Stmt, post: string)
    ensures pre + StmtText(Loop(k, body + [s])) + post == pre + LoopOpen(k) + StmtsText(body) + StmtText(s) + LoopClose(k) + post
  {
    CodeThen(body, s);
    assert StmtText(Loop(k, body + [s])) == LoopOpen(k) + (StmtsText(body) + StmtText(s)) + LoopClose(k);
    GroupLoop(pre, LoopOpen(k), StmtsText(body), StmtText(s), LoopClose(k), post);
  }

  lemma CountedWritten(buf: string, ss: nat, body: seq<Stmt>, min: nat, max: Option<nat>)
    ensures buf + StmtsText(CountedCode(ss, body, min, max))
            == buf + StmtText(Do(SavePos(ss))) + StmtText(Do(ResetCount)) + LoopOpen(PlainLoop) + StmtsText(body)
               + StmtText(CountCheck(max)) + LoopClose(PlainLoop)
               + StmtText(If(CountAtLeast(min), [Do(SetTmp(TrueLit))], [Do(RestorePos(ss)), Do(SetTmp(NilLit))]))
  {
    var a, b, l := Do(SavePos(ss)), Do(ResetCount), Loop(PlainLoop, body + [CountCheck(max)]);
    var v := If(CountAtLeast(min), [Do(SetTmp(TrueLit))], [Do(RestorePos(ss)), Do(SetTmp(NilLit))]);
    FourWritten(buf, a, b, l, v);
    LoopThenWritten(buf + StmtText(a) + StmtText(b), PlainLoop, body, CountCheck(max), StmtText(v));
  }

  lemma LookaheadNotWritten(buf: string, ss: nat, body: seq<Stmt>)
    ensures buf + StmtsText([Do(SavePos(ss))] + body + [Do(SetTmp(Negation)), Do(RestorePos(ss))])
            == buf + StmtText(Do(SavePos(ss))) + StmtsText(body) + StmtText(Do(SetTmp(Negation))) + StmtText(Do(RestorePos(ss)))
  {
    var n, p := Do(SetTmp(Negation)), Do(RestorePos(ss));
    StmtsTextAppend([Do(SavePos(ss))] + body, [n, p]);
    ThenCode(Do(SavePos(ss)), body);
    Two(n, p);
    Group4(buf, StmtText(Do(SavePos(ss))), StmtsText(body), StmtText(n), StmtText(p));
  }

  lemma AroundWritten(buf: string, first: Stmt, body: seq<Stmt>, last: Stmt)
    ensures buf + StmtsText([first] + body + [last]) == buf + StmtText(first) + StmtsText(body) + StmtText(last)
  {
    CodeThen([first] + body, last);
    ThenCode(first, body);
    Group3(buf, StmtText(first), StmtsText(body), StmtText(last));
  }

  lemma TagWritten(buf: string, body: seq<Stmt>, name: string)
    ensures buf + StmtsText(body + [Do(SetTag(name))]) == buf + StmtsText(body) + StmtText(Do(SetTag(name)))
  {
    CodeThen(body, Do(SetTag(name)));
  }

  /** One alternative of a Choice, then the text of the rest. */
  lemma ChoiceArmWritten(buf: string, code: seq<Stmt>, ss: nat, last: bool, more: seq<Stmt>)
    ensures buf + StmtsText(ChoiceArm(code, ss, last) + more)
            == buf + StmtsText(code) + StmtText(When(TmpSet, Break)) + StmtText(Do(RestorePos(ss)))
               + TextIf(last, Do(Break)) + StmtsText(more)
  {
    StmtsTextAppend(ChoiceArm(code, ss, last), more);
    StmtsTextAppend(code + [When(TmpSet, Break), Do(RestorePos(ss))], Opt(last, [Do(Break)]));
    StmtsTextAppend(code, [When(TmpSet, Break), Do(RestorePos(ss))]);
    Two(When(TmpSet, Break), Do(RestorePos(ss)));
    OptText(last, Do(Break));
    GroupArm(buf, StmtsText(code), StmtText(When(TmpSet, Break)), StmtText(Do(RestorePos(ss))),
             TextIf(last, Do(Break)), StmtsText(more));
  }

  /** One element of a Sequence, then the text of the rest. */
  lemma SequenceArmWritten(buf: string, code: seq<Stmt>, ss: nat, last: bool, more: seq<Stmt>)
    ensures last ==> buf + StmtsText(SequenceArm(code, ss, last) + more)
                     == buf + StmtsText(code) + StmtText(Unless(TmpSet, [Do(RestorePos(ss))])) + StmtText(Do(Break))
                        + StmtsText(more)
    ensures !last ==> buf + StmtsText(SequenceArm(code, ss, last) + more)
                      == buf + StmtsText(code) + StmtText(Unless(TmpSet, [Do(RestorePos(ss)), Do(Break)]))
                         + StmtsText(more)
  {
    if last {
      LastElementWritten(buf, code, ss, more);
    } else {
      StmtsTextAppend(code + [Unless(TmpSet, [Do(RestorePos(ss)), Do(Break)])], more);
      CodeThen(code, Unless(TmpSet, [Do(RestorePos(ss)), Do(Break)]));
    }
  }

  lemma LastElementWritten(buf: string, code: seq<Stmt>, ss: nat, more: seq<Stmt>)
    ensures buf + StmtsText(code + [Unless(TmpSet, [Do(RestorePos(ss))]), Do(Break)] + more)
            == buf + StmtsText(code) + StmtText(Unless(TmpSet, [Do(RestorePos(ss))])) + StmtText(Do(Break))
               + StmtsText(more)
  {
    var u, b := Unless(TmpSet, [Do(RestorePos(ss))]), Do(Break);
    StmtsTextAppend(code + [u, b], more);
    StmtsTextAppend(code, [u, b]);
    Two(u, b);
    assert StmtsText(code + [u, b] + more) == StmtsText(code) + (StmtText(u) + StmtText(b)) + StmtsText(more);
    GroupLast(buf, StmtsText(code), StmtText(u), StmtText(b), StmtsText(more));
  }

  lemma GroupLast(x: string, c: string, u: string, b: string, rest: string)
    ensures x + (c + (u + b) + rest) == x + c + u + b + rest
  {
  }

  /** ChoiceArms from element `i` on is that element's arm, then the rest. */
  lemma ChoiceArmsStep(ops: seq<Op>, i: nat, ss: nat, k: nat)
    requires i < |ops| && EmitOp(ops[i], k).Ok?
    ensures var a := EmitOp(ops[i], k).value;
            var here := ChoiceArms(ops[i..], ss, k);
            var rest := ChoiceArms(ops[i + 1..], ss, a.next);
            && (here.Ok? <==> rest.Ok?)
            && (here.Ok? ==> here.value == Emitted(ChoiceArm(a.code, ss, i == |ops| - 1) + rest.value.code, rest.value.next))
  {
    assert ops[i..][0] == ops[i] && ops[i..][1..] == ops[i + 1..];
  }

  /** SequenceArms from element `i` on is that element's arm, then the rest. */
  lemma SequenceArmsStep(ops: seq<Op>, i: nat, ss: nat, k: nat)
    requires i < |ops| && EmitOp(ops[i], k).Ok?
    ensures var a := EmitOp(ops[i], k).value;
            var here := SequenceArms(ops[i..], ss, k);
            var rest := SequenceArms(ops[i + 1..], ss, a.next);
            && (here.Ok? <==> rest.Ok?)
            && (here.Ok? ==> here.value == Emitted(SequenceArm(a.code, ss, i == |ops| - 1) + rest.value.code, rest.value.next))
  {
    assert ops[i..][0] == ops[i] && ops[i..][1..] == ops[i + 1..];
  }

  /** A routine written piece by piece is its text. */
  lemma RoutineWritten(buf: string, name: string, rule: Rule, rendering: string, code: seq<Stmt>)
    ensures buf + RoutineText(name, rule, rendering, code)
            == buf + RoutineHead(name, rule, rendering)
               + StmtsText(code) + StmtText(WhenNot(TmpSet, RecordFailure(MethodName(name))))
               + "return _tmp\n" + "  end\n"
  {
    CodeThen(code, WhenNot(TmpSet, RecordFailure(MethodName(name))));
    GroupRoutine(buf, RoutineHead(name, rule, rendering), StmtsText(code),
                 StmtText(WhenNot(TmpSet, RecordFailure(MethodName(name)))), "return _tmp\n", "  end\n");
  }

  /** The routines stop at the first rule that is undefined or refused. */
  lemma RoutinesStop(g: Grammar, rd: Renderer, order: seq<string>, k: nat)
    requires k < |order| && Routine(g, rd, order[k]).Err?
    ensures Routines(g, rd, order).Err?
  {
  }

  /** The routines for one more rule of the order. */
  lemma RoutinesSnoc(g: Grammar, rd: Renderer, order: seq<string>, k: nat, code: string)
    requires k < |order| && Routines(g, rd, order[..k]).Ok? && Routine(g, rd, order[k]).Ok?
    ensures Routines(g, rd, order[..k + 1]).Ok?
    ensures code + Concat(Routines(g, rd, order[..k + 1]).value)
            == code + Concat(Routines(g, rd, order[..k]).value) + Routine(g, rd, order[k]).value
  {
    assert order[..k + 1][..k] == order[..k];
    var rs := Routines(g, rd, order[..k]).value;
    assert Routines(g, rd, order[..k + 1]).value == rs + [Routine(g, rd, order[k]).value];
    ConcatSnoc(rs, Routine(g, rd, order[k]).value);
    Group2(code, Concat(rs), Routine(g, rd, order[k]).value);
  }

  lemma RenderingKept(order: seq<string>, k: nat, renderings: map<string, string>, rend: string)
    requires k < |order| && forall j :: 0 <= j < k ==> order[j] in renderings
    ensures forall j :: 0 <= j < k + 1 ==> order[j] in renderings[order[k] := rend]
  {
  }

  /** Every rule in rule order has its rendering once all are written. */
  lemma RoutineNames(g: Grammar, rd: Renderer, order: seq<string>, renderings: map<string, string>)
    requires forall j :: 0 <= j < |order| ==> order[j] in renderings
    requires forall n :: n in renderings ==> n in g.rules && renderings[n] == Rendering(rd, g.rules[n].op)
    ensures forall n :: n in order ==> n in g.rules && n in renderings && renderings[n] == Rendering(rd, g.rules[n].op)
  {
    forall n | n in order
      ensures n in renderings
    {
      var j :| 0 <= j < |order| && order[j] == n;
    }
  }

  // ---------------------------------------------------------------------
  // The generator

  class CodeGenerator {
    /** The name of the parser class written. */
    const name: string
    const grammar: Grammar
    /** Whether the runtime is copied into the output instead of required. */
    var standalone: bool
    /** The savepoint counter. */
    var saves: nat
    /** The cached result of Output. */
    var output: Option<string>

    constructor(name: string, grammar: Grammar)
      ensures this.name == name && this.grammar == grammar
      ensures !standalone && saves == 0 && output == None
    {
      this.name := name;
      this.grammar := grammar;
      standalone := false;
      saves := 0;
      output := None;
    }

    /** `standalone=`. A cached output is kept as it is. */
    method SetStandalone(value: bool)
      modifies this`standalone
      ensures standalone == value
    {
      standalone := value;
    }

    /** `save`: hands out the next savepoint, `_save` first and then
        `_save1`, `_save2`, ...; `slot` is its number. */
    method Save() returns (slot: nat, s: string)
      modifies this`saves
      ensures slot == old(saves) && s == SaveName(slot) && saves == old(saves) + 1
    {
      slot := saves;
      if saves == 0 {
        s := SavePrefix;
      } else {
        s := SavePrefix + Decimal(saves);
      }
      saves := saves + 1;
    }

    /** `reset_saves`: the next savepoint is `_save` again. */
    method ResetSaves()
      modifies this`saves
      ensures saves == 0
    {
      saves := 0;
    }

    /** `output_op`: appends the code for `op` to `code`. The text written
        is that of Emit.EmitOp from the counter's value on entry, and the
        counter ends where EmitOp says; an operator EmitOp refuses is an
        error. */
    method OutputOp(code: string, op: Op) returns (r: Result<string>)
      modifies this`saves
      ensures EmitOp(op, old(saves)).Ok? ==>
                r == Ok(code + StmtsText(EmitOp(op, old(saves)).value.code)) && saves == EmitOp(op, old(saves)).value.next
      ensures EmitOp(op, old(saves)).Err? ==> r.Err?
      decreases op, 2
    {
      match op
      case Dot =>
        LeafWritten(code, Do(SetTmp(GetByteCall)));
        r := Ok(code + StmtText(Do(SetTmp(GetByteCall))));
      case LiteralString(lit) =>
        LeafWritten(code, Do(SetTmp(MatchStringCall(lit))));
        r := Ok(code + StmtText(Do(SetTmp(MatchStringCall(lit)))));
      case LiteralRegexp(p) =>
        LeafWritten(code, Do(SetTmp(ScanCall(p))));
        r := Ok(code + StmtText(Do(SetTmp(ScanCall(p)))));
      case CharRange(s, f) =>
        r := OutputRange(code, s, f);
      case Choice(ops) =>
        r := OutputChoice(code, ops);
      case Multiple(body, min, max, sv) =>
        r := OutputMultiple(code, body, min, max, sv);
      case Sequence(ops) =>
        r := OutputSequence(code, ops);
      case AndPredicate(inner) =>
        r := OutputLookahead(code, op);
      case NotPredicate(inner) =>
        r := OutputLookahead(code, op);
      case RuleReference(n) =>
        LeafWritten(code, Do(SetTmp(ApplyCall(MethodName(n)))));
        r := Ok(code + StmtText(Do(SetTmp(ApplyCall(MethodName(n))))));
      case InvokeRule(n, args) =>
        LeafWritten(code, Do(SetTmp(InvokeCall(MethodName(n), args))));
        r := Ok(code + StmtText(Do(SetTmp(InvokeCall(MethodName(n), args)))));
      case ForeignInvokeRule(g, n, args) =>
        LeafWritten(code, Do(SetTmp(ForeignCall(g, MethodName(n), args))));
        r := Ok(code + StmtText(Do(SetTmp(ForeignCall(g, MethodName(n), args)))));
      case Tag(inner, tagName) =>
        r := OutputTag(code, inner, tagName);
      case Action(action) =>
        ActionWritten(code, Do(SetResult(HostCode(action))), Do(SetTmp(TrueLit)));
        r := Ok(code + StmtText(Do(SetResult(HostCode(action)))) + StmtText(Do(SetTmp(TrueLit))));
      case Collect(inner) =>
        r := OutputCollect(code, inner);
    }

    /** A byte range. The savepoint is taken before the endpoints are
        checked, so a refused range still advances the counter. */
    method OutputRange(code: string, s: seq<byte>, f: seq<byte>) returns (r: Result<string>)
      modifies this`saves
      ensures EmitOp(CharRange(s, f), old(saves)).Ok? ==>
                r == Ok(code + StmtsText(EmitOp(CharRange(s, f), old(saves)).value.code))
                && saves == EmitOp(CharRange(s, f), old(saves)).value.next
      ensures EmitOp(CharRange(s, f), old(saves)).Err? ==> r.Err?
    {
      var ss, _ := Save();
      if |s| == 1 && |f| == 1 {
        var left, right := s[0] as nat, f[0] as nat;
        RangeWritten(code, ss, left, right);
        r := Ok(code + StmtText(Do(SavePos(ss))) + StmtText(Do(SetTmp(GetByteCall)))
                + StmtText(If(TmpSet, [Unless(TmpBetween(left, right), [Do(RestorePos(ss)), Do(SetTmp(NilLit))])], [])));
      } else {
        r := Err("Unsupported char range");
      }
    }

    method OutputChoice(code: string, ops: seq<Op>) returns (r: Result<string>)
      modifies this`saves
      ensures EmitOp(Choice(ops), old(saves)).Ok? ==>
                r == Ok(code + StmtsText(EmitOp(Choice(ops), old(saves)).value.code))
                && saves == EmitOp(Choice(ops), old(saves)).value.next
      ensures EmitOp(Choice(ops), old(saves)).Err? ==> r.Err?
      decreases Choice(ops), 1
    {
      var ss, _ := Save();
      var arms := OutputChoiceArms(code + StmtText(Do(SavePos(ss))) + LoopOpen(ChoiceLoop), ops, ss);
      if arms.Ok? {
        WrappedWritten(code, ChoiceLoop, ss, ChoiceArms(ops, ss, ss + 1).value.code);
        r := Ok(arms.value + LoopClose(ChoiceLoop));
      } else {
        r := arms;
      }
    }

    method OutputSequence(code: string, ops: seq<Op>) returns (r: Result<string>)
      modifies this`saves
      ensures EmitOp(Sequence(ops), old(saves)).Ok? ==>
                r == Ok(code + StmtsText(EmitOp(Sequence(ops), old(saves)).value.code))
                && saves == EmitOp(Sequence(ops), old(saves)).value.next
      ensures EmitOp(Sequence(ops), old(saves)).Err? ==> r.Err?
      decreases Sequence(ops), 1
    {
      var ss, _ := Save();
      var arms := OutputSequenceArms(code + StmtText(Do(SavePos(ss))) + LoopOpen(SequenceLoop), ops, ss);
      if arms.Ok? {
        WrappedWritten(code, SequenceLoop, ss, SequenceArms(ops, ss, ss + 1).value.code);
        r := Ok(arms.value + LoopClose(SequenceLoop));
      } else {
        r := arms;
      }
    }

    /** A repetition: a savepoint is taken whatever the bounds, and the
        bounds choose one of four shapes. */
    method OutputMultiple(code: string, body: Op, min: nat, max: Option<nat>, sv: bool) returns (r: Result<string>)
      modifies this`saves
      ensures EmitOp(Multiple(body, min, max, sv), old(saves)).Ok? ==>
                r == Ok(code + StmtsText(EmitOp(Multiple(body, min, max, sv), old(saves)).value.code))
                && saves == EmitOp(Multiple(body, min, max, sv), old(saves)).value.next
      ensures EmitOp(Multiple(body, min, max, sv), old(saves)).Err? ==> r.Err?
      decreases Multiple(body, min, max, sv), 1
    {
      var ss, _ := Save();
      ghost var op := Multiple(body, min, max, sv);
      ghost var e := EmitOp(body, ss + 1);
      if min == 0 && max == Some(1) {
        assert e.Ok? ==> EmitOp(op, ss) == Ok(Emitted(OptionalCode(ss, e.value.code, sv), e.value.next));
        r := OutputOptional(code, body, ss, sv);
      } else if min == 0 && max.None? {
        assert e.Ok? ==> EmitOp(op, ss) == Ok(Emitted(StarCode(e.value.code, sv), e.value.next));
        r := OutputStar(code, body, sv);
      } else if min == 1 && max.None? {
        r := OutputPlus(code, body, ss, sv);
      } else {
        assert e.Ok? ==> EmitOp(op, ss) == Ok(Emitted(CountedCode(ss, e.value.code, min, max), e.value.next));
        r := OutputCounted(code, body, ss, min, max);
      }
    }

    /** A tagged operand: its value is bound to the name after it runs,
        unless the name is empty. */
    method OutputTag(code: string, inner: Op, tagName: string) returns (r: Result<string>)
      modifies this`saves
      ensures EmitOp(Tag(inner, tagName), old(saves)).Ok? ==>
                r == Ok(code + StmtsText(EmitOp(Tag(inner, tagName), old(saves)).value.code))
                && saves == EmitOp(Tag(inner, tagName), old(saves)).value.next
      ensures EmitOp(Tag(inner, tagName), old(saves)).Err? ==> r.Err?
      decreases Tag(inner, tagName), 1
    {
      var b := OutputOp(code, inner);
      if b.Ok? && tagName != "" {
        TagWritten(code, EmitOp(inner, old(saves)).value.code, tagName);
        r := Ok(b.value + StmtText(Do(SetTag(tagName))));
      } else {
        r := b;
      }
    }

    /** A captured operand: the text it matched becomes the value. */
    method OutputCollect(code: string, inner: Op) returns (r: Result<string>)
      modifies this`saves
      ensures EmitOp(Collect(inner), old(saves)).Ok? ==>
                r == Ok(code + StmtsText(EmitOp(Collect(inner), old(saves)).value.code))
                && saves == EmitOp(Collect(inner), old(saves)).value.next
      ensures EmitOp(Collect(inner), old(saves)).Err? ==> r.Err?
      decreases Collect(inner), 1
    {
      ghost var e := EmitOp(inner, saves);
      assert e.Ok? ==> EmitOp(Collect(inner), saves) == Ok(Emitted([Do(MarkText)] + e.value.code + [If(TmpSet, [Do(TakeText)], [])], e.value.next));
      var b := OutputOp(code + StmtText(Do(MarkText)), inner);
      if b.Ok? {
        AroundWritten(code, Do(MarkText), e.value.code, If(TmpSet, [Do(TakeText)], []));
        r := Ok(b.value + StmtText(If(TmpSet, [Do(TakeText)], [])));
      } else {
        r := b;
      }
    }

    /** The alternatives of a Choice, each followed by `break if _tmp` and
        a return to the savepoint, the last by a plain `break`. */
    method OutputChoiceArms(code: string, ops: seq<Op>, ss: nat) returns (r: Result<string>)
      modifies this`saves
      ensures ChoiceArms(ops, ss, old(saves)).Ok? ==>
                r == Ok(code + StmtsText(ChoiceArms(ops, ss, old(saves)).value.code))
                && saves == ChoiceArms(ops, ss, old(saves)).value.next
      ensures ChoiceArms(ops, ss, old(saves)).Err? ==> r.Err?
      decreases ops, 3
    {
      ghost var whole := ChoiceArms(ops, ss, saves);
      var out := code;
      var i := 0;
      while i < |ops|
        invariant 0 <= i <= |ops|
        invariant whole.Ok? <==> ChoiceArms(ops[i..], ss, saves).Ok?
        invariant whole.Ok? ==> whole.value.next == ChoiceArms(ops[i..], ss, saves).value.next
        invariant whole.Ok? ==> code + StmtsText(whole.value.code) == out + StmtsText(ChoiceArms(ops[i..], ss, saves).value.code)
      {
        ghost var k := saves;
        var a := OutputOp(out, ops[i]);
        if a.Err? {
          return a;
        }
        ChoiceArmsStep(ops, i, ss, k);
        ghost var rest := ChoiceArms(ops[i + 1..], ss, saves);
        if rest.Ok? {
          ChoiceArmWritten(out, EmitOp(ops[i], k).value.code, ss, i == |ops| - 1, rest.value.code);
        }
        out := a.value + StmtText(When(TmpSet, Break)) + StmtText(Do(RestorePos(ss)));
        if i == |ops| - 1 {
          out := out + StmtText(Do(Break));
        } else {
          assert out + "" == out;
        }
        i := i + 1;
      }
      assert out + StmtsText([]) == out;
      r := Ok(out);
    }

    /** The elements of a Sequence, each followed by a return to the
        savepoint and `break` when `_tmp` is not set, the last by a plain
        `break`. */
    method OutputSequenceArms(code: string, ops: seq<Op>, ss: nat) returns (r: Result<string>)
      modifies this`saves
      ensures SequenceArms(ops, ss, old(saves)).Ok? ==>
                r == Ok(code + StmtsText(SequenceArms(ops, ss, old(saves)).value.code))
                && saves == SequenceArms(ops, ss, old(saves)).value.next
      ensures SequenceArms(ops, ss, old(saves)).Err? ==> r.Err?
      decreases ops, 3
    {
      ghost var whole := SequenceArms(ops, ss, saves);
      var out := code;
      var i := 0;
      while i < |ops|
        invariant 0 <= i <= |ops|
        invariant whole.Ok? <==> SequenceArms(ops[i..], ss, saves).Ok?
        invariant whole.Ok? ==> whole.value.next == SequenceArms(ops[i..], ss, saves).value.next
        invariant whole.Ok? ==> code + StmtsText(whole.value.code) == out + StmtsText(SequenceArms(ops[i..], ss, saves).value.code)
      {
        ghost var k := saves;
        var a := OutputOp(out, ops[i]);
        if a.Err? {
          return a;
        }
        SequenceArmsStep(ops, i, ss, k);
        ghost var rest := SequenceArms(ops[i + 1..], ss, saves);
        if rest.Ok? {
          SequenceArmWritten(out, EmitOp(ops[i], k).value.code, ss, i == |ops| - 1, rest.value.code);
        }
        if i == |ops| - 1 {
          out := a.value + StmtText(Unless(TmpSet, [Do(RestorePos(ss))])) + StmtText(Do(Break));
        } else {
          out := a.value + StmtText(Unless(TmpSet, [Do(RestorePos(ss)), Do(Break)]));
        }
        i := i + 1;
      }
      assert out + StmtsText([]) == out;
      r := Ok(out);
    }

    /** Repetition (0,1). */
    method OutputOptional(code: string, body: Op, ss: nat, sv: bool) returns (r: Result<string>)
      modifies this`saves
      ensures EmitOp(body, old(saves)).Ok? ==>
                r == Ok(code + StmtsText(OptionalCode(ss, EmitOp(body, old(saves)).value.code, sv)))
                && saves == EmitOp(body, old(saves)).value.next
      ensures EmitOp(body, old(saves)).Err? ==> r.Err?
      decreases body, 3
    {
      var b := OutputOp(code + StmtText(Do(SavePos(ss))), body);
      if b.Err? {
        return b;
      }
      OptionalWritten(code, ss, EmitOp(body, old(saves)).value.code, sv);
      r := Ok(b.value + TextIf(sv, WhenNot(TmpSet, SetResult(NilLit)))
              + StmtText(Unless(TmpSet, [Do(SetTmp(TrueLit)), Do(RestorePos(ss))])));
    }

    /** Repetition (0,*). */
    method OutputStar(code: string, body: Op, sv: bool) returns (r: Result<string>)
      modifies this`saves
      ensures EmitOp(body, old(saves)).Ok? ==>
                r == Ok(code + StmtsText(StarCode(EmitOp(body, old(saves)).value.code, sv)))
                && saves == EmitOp(body, old(saves)).value.next
      ensures EmitOp(body, old(saves)).Err? ==> r.Err?
      decreases body, 3
    {
      var b := OutputOp(code + TextIf(sv, Do(ClearAry)) + LoopOpen(PlainLoop), body);
      if b.Err? {
        return b;
      }
      StarWritten(code, EmitOp(body, old(saves)).value.code, sv);
      r := Ok(b.value + TextIf(sv, When(TmpSet, PushResult)) + StmtText(WhenNot(TmpSet, Break)) + LoopClose(PlainLoop)
              + StmtText(Do(SetTmp(TrueLit))) + TextIf(sv, Do(SetResult(AryLocal))));
    }

    /** Repetition (1,*): the operand is written once for the first
        attempt and once more inside the loop. */
    method OutputPlus(code: string, body: Op, ss: nat, sv: bool) returns (r: Result<string>)
      modifies this`saves
      ensures var first := EmitOp(body, old(saves));
              && (first.Ok? && EmitOp(body, first.value.next).Ok? ==>
                    r == Ok(code + StmtsText(PlusCode(ss, first.value.code, EmitOp(body, first.value.next).value.code, sv)))
                    && saves == EmitOp(body, first.value.next).value.next)
              && (first.Err? || EmitOp(body, first.value.next).Err? ==> r.Err?)
      decreases body, 3
    {
      var first := OutputOp(code + StmtText(Do(SavePos(ss))) + TextIf(sv, Do(ClearAry)), body);
      if first.Err? {
        return first;
      }
      var again := OutputOp(first.value + IfTmpOpen + TextIf(sv, Do(PushResult)) + LoopOpen(PlainLoop), body);
      if again.Err? {
        return again;
      }
      var f := EmitOp(body, old(saves)).value;
      PlusWritten(code, ss, f.code, EmitOp(body, f.next).value.code, sv);
      r := Ok(again.value + TextIf(sv, When(TmpSet, PushResult)) + StmtText(WhenNot(TmpSet, Break)) + LoopClose(PlainLoop)
              + StmtText(Do(SetTmp(TrueLit))) + TextIf(sv, Do(SetResult(AryLocal)))
              + ElseLine + StmtText(Do(RestorePos(ss))) + EndLine);
    }

    /** Bounded repetition. */
    method OutputCounted(code: string, body: Op, ss: nat, min: nat, max: Option<nat>) returns (r: Result<string>)
      modifies this`saves
      ensures EmitOp(body, old(saves)).Ok? ==>
                r == Ok(code + StmtsText(CountedCode(ss, EmitOp(body, old(saves)).value.code, min, max)))
                && saves == EmitOp(body, old(saves)).value.next
      ensures EmitOp(body, old(saves)).Err? ==> r.Err?
      decreases body, 3
    {
      var b := OutputOp(code + StmtText(Do(SavePos(ss))) + StmtText(Do(ResetCount)) + LoopOpen(PlainLoop), body);
      if b.Err? {
        return b;
      }
      CountedWritten(code, ss, EmitOp(body, old(saves)).value.code, min, max);
      r := Ok(b.value + StmtText(CountCheck(max)) + LoopClose(PlainLoop)
              + StmtText(If(CountAtLeast(min), [Do(SetTmp(TrueLit))], [Do(RestorePos(ss)), Do(SetTmp(NilLit))])));
    }

    /** A lookahead, `&` or `!`: a savepoint, inline action code or the
        operand, the negation for `!`, and the return to the savepoint. */
    method OutputLookahead(code: string, op: Op) returns (r: Result<string>)
      requires op.AndPredicate? || op.NotPredicate?
      modifies this`saves
      ensures EmitOp(op, old(saves)).Ok? ==>
                r == Ok(code + StmtsText(EmitOp(op, old(saves)).value.code))
                && saves == EmitOp(op, old(saves)).value.next
      ensures EmitOp(op, old(saves)).Err? ==> r.Err?
      decreases op, 1
    {
      var ss, _ := Save();
      var inner := op.op;
      var b: Result<string>;
      if inner.Action? {
        One(Do(SetTmp(HostCode(inner.action))));
        b := Ok(code + StmtText(Do(SavePos(ss))) + StmtText(Do(SetTmp(HostCode(inner.action)))));
      } else {
        b := OutputOp(code + StmtText(Do(SavePos(ss))), inner);
      }
      if b.Err? {
        return b;
      }
      ghost var body := PredicateBody(inner, ss + 1).value.code;
      if op.AndPredicate? {
        AroundWritten(code, Do(SavePos(ss)), body, Do(RestorePos(ss)));
        r := Ok(b.value + StmtText(Do(RestorePos(ss))));
      } else {
        LookaheadNotWritten(code, ss, body);
        r := Ok(b.value + StmtText(Do(SetTmp(Negation))) + StmtText(Do(RestorePos(ss))));
      }
    }

    /** `output`: the whole parser source, written once and then returned
        from the cache. The text is Assembly.Assemble of the settings at
        the first call; a missing standalone region, an undefined rule or
        a refused operator is an error and leaves the cache empty. */
    method Output(lib: Library, rd: Renderer) returns (r: Result<string>)
      modifies this`saves, this`output
      ensures old(output).Some? ==> r == Ok(old(output).value) && output == old(output) && saves == old(saves)
      ensures old(output).None? && Assemble(name, grammar, standalone, lib, rd).Ok? ==>
                r == Assemble(name, grammar, standalone, lib, rd) && output == Some(r.value)
      ensures old(output).None? && Assemble(name, grammar, standalone, lib, rd).Err? ==> r.Err? && output == None
    {
      if output.Some? {
        return Ok(output.value);
      }
      var head := WriteHeader(lib);
      if head.Err? {
        return head;
      }
      var code := WriteSetup(head.value);
      code := WriteForeignSetup(code);
      var routines, renderings := WriteRoutines(code, rd);
      if routines.Err? {
        return routines;
      }
      code := WriteTable(routines.value, rd, renderings);
      code := code + ClassClose;
      ghost var front := Front(head.value, grammar, standalone);
      ghost var rs := Routines(grammar, rd, grammar.ruleOrder).value;
      assert Assemble(name, grammar, standalone, lib, rd) == Ok(front + Concat(rs) + Back(grammar, rd));
      Group3(front + Concat(rs), TableOpen, Concat(TablePieces(grammar, rd, grammar.ruleOrder)), ClassClose);
      output := Some(code);
      r := Ok(code);
    }

    /** The class header: a copy of the runtime for a standalone parser,
        otherwise a `require` and a subclass of KPeg::CompiledParser. */
    method WriteHeader(lib: Library) returns (r: Result<string>)
      ensures r == Header(name, standalone, lib) || (r.Err? && Header(name, standalone, lib).Err?)
    {
      var code: string;
      if standalone {
        code := "class " + name + "\n";
        var cp := StandaloneRegion(lib.compiledParser);
        if cp.None? {
          return Err("Standalone failure. Check compiler_parser.rb for proper boundary comments");
        }
        var pp := StandaloneRegion(lib.position);
        if pp.None? {
          return Err("Standalone failure. Check position.rb for proper boundary comments");
        }
        code := code + ReplaceAll(cp.value, PositionInclude, pp.value) + "\n";
      } else {
        code := RequireLine;
        code := code + "class " + name + " < KPeg::CompiledParser\n";
      }
      r := Ok(code);
    }

    /** The setup blocks, in order. */
    method WriteSetup(code: string) returns (out: string)
      ensures out == code + Concat(SetupPieces(grammar.setupActions))
    {
      var actions := grammar.setupActions;
      out := code;
      var i := 0;
      while i < |actions|
        invariant 0 <= i <= |actions|
        invariant out == code + Concat(SetupPieces(actions)[..i])
      {
        ConcatPrefix(SetupPieces(actions), i);
        Group2(code, Concat(SetupPieces(actions)[..i]), SetupText(actions[i]));
        out := out + SetupText(actions[i]);
        i := i + 1;
      }
      assert SetupPieces(actions)[..i] == SetupPieces(actions);
    }

    /** `setup_foreign_grammar`, when there is one to write. */
    method WriteForeignSetup(code: string) returns (out: string)
      ensures out == code + ForeignSetup(grammar.foreignGrammars, standalone)
    {
      var fgs := grammar.foreignGrammars;
      out := code;
      if fgs == [] {
        if standalone {
          out := out + EmptyForeignSetup;
        }
      } else {
        out := out + ForeignSetupOpen;
        ghost var pre := out;
        var i := 0;
        while i < |fgs|
          invariant 0 <= i <= |fgs|
          invariant out == pre + Concat(ForeignPieces(fgs)[..i])
        {
          ConcatPrefix(ForeignPieces(fgs), i);
          Group2(pre, Concat(ForeignPieces(fgs)[..i]), ForeignLine(fgs[i]));
          out := out + ForeignLine(fgs[i]);
          i := i + 1;
        }
        assert ForeignPieces(fgs)[..i] == ForeignPieces(fgs);
        out := out + ForeignSetupClose;
        Group3(code, ForeignSetupOpen, Concat(ForeignPieces(fgs)), ForeignSetupClose);
      }
    }

    /** One routine per rule in rule order; the one-line rendering of
        every rule is kept for the table. */
    method WriteRoutines(code: string, rd: Renderer) returns (r: Result<string>, renderings: map<string, string>)
      modifies this`saves
      ensures Routines(grammar, rd, grammar.ruleOrder).Ok? ==>
                r == Ok(code + Concat(Routines(grammar, rd, grammar.ruleOrder).value))
      ensures Routines(grammar, rd, grammar.ruleOrder).Err? ==> r.Err?
      ensures r.Ok? ==> forall n :: n in grammar.ruleOrder ==>
                          n in grammar.rules && n in renderings && renderings[n] == Rendering(rd, grammar.rules[n].op)
    {
      var order := grammar.ruleOrder;
      renderings := map[];
      var out := code;
      var k := 0;
      assert order[..0] == [];
      assert out == code + Concat(Routines(grammar, rd, order[..0]).value);
      while k < |order|
        invariant 0 <= k <= |order|
        invariant Routines(grammar, rd, order[..k]).Ok?
        invariant out == code + Concat(Routines(grammar, rd, order[..k]).value)
        invariant forall j :: 0 <= j < k ==> order[j] in renderings
        invariant forall n :: n in renderings ==> n in grammar.rules && renderings[n] == Rendering(rd, grammar.rules[n].op)
      {
        var step, rend := WriteRoutine(out, order[k], rd);
        if step.Err? {
          RoutinesStop(grammar, rd, order, k);
          return step, renderings;
        }
        RoutinesSnoc(grammar, rd, order, k, code);
        RenderingKept(order, k, renderings, rend);
        renderings := renderings[order[k] := rend];
        out := step.value;
        k := k + 1;
      }
      assert order[..k] == order;
      r := Ok(out);
      RoutineNames(grammar, rd, order, renderings);
    }

    /** The routine for the rule called `n`, written with the savepoint
        counter reset: the comment with its rendering, the `def` line, the
        operator's code, the failure record and the return. */
    method WriteRoutine(code: string, n: string, rd: Renderer) returns (r: Result<string>, rend: string)
      modifies this`saves
      ensures Routine(grammar, rd, n).Ok? ==>
                r == Ok(code + Routine(grammar, rd, n).value) && rend == Rendering(rd, grammar.rules[n].op)
      ensures Routine(grammar, rd, n).Err? ==> r.Err?
    {
      ResetSaves();
      if n !in grammar.rules {
        return Err("no rule " + n), "";
      }
      var rule := grammar.rules[n];
      rend := ReplaceAll(rd.render(rule.op), "\n", " ");
      var head := code + "\n" + CommentLine(n, rend) + DefLine(n, rule.arguments);
      var c := OutputOp(head, rule.op);
      if c.Err? {
        return c, rend;
      }
      RoutineWritten(code, n, rule, rend, EmitOp(rule.op, 0).value.code);
      Group3(code, "\n", CommentLine(n, rend), DefLine(n, rule.arguments));
      r := Ok(c.value + StmtText(WhenNot(TmpSet, RecordFailure(MethodName(n)))) + "return _tmp\n" + "  end\n");
    }

    /** The `Rules` table: one entry per rule in rule order, from the
        renderings kept while the routines were written. */
    method WriteTable(code: string, rd: Renderer, renderings: map<string, string>) returns (out: string)
      requires forall n :: n in grammar.ruleOrder ==>
                 n in grammar.rules && n in renderings && renderings[n] == Rendering(rd, grammar.rules[n].op)
      ensures forall i :: 0 <= i < |grammar.ruleOrder| ==> grammar.ruleOrder[i] in grammar.rules
      ensures out == code + TableOpen + Concat(TablePieces(grammar, rd, grammar.ruleOrder))
    {
      var order := grammar.ruleOrder;
      assert forall i :: 0 <= i < |order| ==> order[i] in grammar.rules by {
        forall i | 0 <= i < |order| ensures order[i] in grammar.rules {
          assert order[i] in order;
        }
      }
      out := code + TableOpen;
      ghost var pre := out;
      ghost var pieces := TablePieces(grammar, rd, order);
      var t := 0;
      while t < |order|
        invariant 0 <= t <= |order|
        invariant out == pre + Concat(pieces[..t])
      {
        var n := order[t];
        assert n in order;
        var line := TableLine(n, rd.escape(renderings[n]));
        assert line == pieces[t];
        ConcatPrefix(pieces, t);
        Group2(pre, Concat(pieces[..t]), line);
        out := out + line;
        t := t + 1;
      }
      assert TablePieces(grammar, rd, order)[..t] == TablePieces(grammar, rd, order);
    }
  }
}
