/** The statements the generator writes into a routine body, their text,
    and what they do when the routine runs. Each constructor stands for
    one line shape that appears in `output_op`
    (lib/kpeg/code_generator.rb:37-236); indentation and blank lines are
    not modelled. */
module Ruby {

  import opened Values
  import opened Strings
  import opened Naming
  import opened Runtime

  /** Right-hand sides of assignments to `_tmp` and `@result`. */
  datatype Expr =
    | GetByteCall                                   // get_byte
    | MatchStringCall(lit: seq<byte>)               // match_string("...")
    | ScanCall(pattern: string)                     // scan(/\A.../)
    | ApplyCall(routine: string)                    // apply(:_rule)
    | InvokeCall(routine: string, arguments: Option<string>)          // _rule(args)
    | ForeignCall(grammarName: string, routine: string, arguments: Option<string>)
    | HostCode(code: string)                        // begin; code; end
    | NilLit
    | TrueLit
    | Negation                                      // _tmp ? nil : true
    | AryLocal                                      // _ary

  /** Conditions of `if`, `unless` and statement modifiers. */
  datatype Cond =
    | TmpSet                                        // _tmp
    | TmpBetween(lo: nat, hi: nat)                  // _tmp >= lo and _tmp <= hi
    | CountIs(max: Option<nat>)                     // _count == max
    | CountAtLeast(min: nat)                        // _count >= min

  /** One-line statements. */
  datatype Simple =
    | SetTmp(e: Expr)                               // _tmp = e
    | SetResult(e: Expr)                            // @result = e
    | SavePos(slot: nat)                            // _save<slot> = self.pos
    | RestorePos(slot: nat)                         // self.pos = _save<slot>
    | ClearAry                                      // _ary = []
    | PushResult                                    // _ary << @result
    | ResetCount                                    // _count = 0
    | IncCount                                      // _count += 1
    | MarkText                                      // _text_start = self.pos
    | TakeText                                      // text = get_text(_text_start)
    | SetTag(name: string)                          // name = @result
    | RecordFailure(routine: string)                // set_failed_rule :routine
    | Break                                         // break

  /** The comment a `while true` loop carries. */
  datatype LoopKind = PlainLoop | ChoiceLoop | SequenceLoop

  datatype Stmt =
    | Do(s: Simple)
    | Loop(kind: LoopKind, body: seq<Stmt>)         // while true ... end
    | If(cond: Cond, thn: seq<Stmt>, els: seq<Stmt>)
    | Unless(cond: Cond, body: seq<Stmt>)
    | When(cond: Cond, s: Simple)                   // s if cond
    | WhenNot(cond: Cond, s: Simple)                // s unless cond

  // ---------------------------------------------------------------------
  // Text

  /** `String#dump` of a literal, without its escaping of special bytes. */
  function Dump(lit: seq<byte>): string {
    "\"" + seq(|lit|, i requires 0 <= i < |lit| => lit[i] as int as char) + "\""
  }

  /** The text between the parentheses of a call-site argument list:
      `arguments[1..-2]` in Ruby. */
  function Inner(arguments: string): string {
    if |arguments| >= 2 then arguments[1..|arguments| - 1] else ""
  }

  function ExprText(e: Expr): string {
    match e
    case GetByteCall => "get_byte"
    case MatchStringCall(lit) => "match_string(" + Dump(lit) + ")"
    case ScanCall(p) => "scan(/\\A" + p + "/)"
    case ApplyCall(m) => "apply(:" + m + ")"
    case InvokeCall(m, None) => m + "()"
    case InvokeCall(m, Some(a)) => m + a
    case ForeignCall(g, m, None) => "@_grammar_" + g + ".external_invoke(self, :" + m + ")"
    case ForeignCall(g, m, Some(a)) => "@_grammar_" + g + ".external_invoke(self, :" + m + ", " + Inner(a) + ")"
    case HostCode(code) => "begin; " + code + "; end"
    case NilLit => "nil"
    case TrueLit => "true"
    case Negation => "_tmp ? nil : true"
    case AryLocal => "_ary"
  }

  /** A missing maximum interpolates as nothing, leaving `_count == ` with no
      right operand. */
  function CondText(c: Cond): string {
    match c
    case TmpSet => "_tmp"
    case TmpBetween(lo, hi) => "_tmp >= " + Decimal(lo) + " and _tmp <= " + Decimal(hi)
    case CountIs(Some(n)) => "_count == " + Decimal(n)
    case CountIs(None) => "_count == "
    case CountAtLeast(n) => "_count >= " + Decimal(n)
  }

  function SimpleText(s: Simple): string {
    match s
    case SetTmp(e) => "_tmp = " + ExprText(e)
    case SetResult(e) => "@result = " + ExprText(e)
    case SavePos(slot) => SaveName(slot) + " = self.pos"
    case RestorePos(slot) => "self.pos = " + SaveName(slot)
    case ClearAry => "_ary = []"
    case PushResult => "_ary << @result"
    case ResetCount => "_count = 0"
    case IncCount => "_count += 1"
    case MarkText => "_text_start = self.pos"
    case TakeText => "text = get_text(_text_start)"
    case SetTag(name) => name + " = @result"
    case RecordFailure(m) => "set_failed_rule :" + m
    case Break => "break"
  }

  function LoopOpen(k: LoopKind): string {
    match k
    case PlainLoop => "while true\n"
    case ChoiceLoop => "while true # choice\n"
    case SequenceLoop => "while true # sequence\n"
  }

  function LoopClose(k: LoopKind): string {
    match k
    case PlainLoop => "end\n"
    case ChoiceLoop => "end # end choice\n"
    case SequenceLoop => "end # end sequence\n"
  }

  function StmtText(s: Stmt): string
    decreases s
  {
    match s
    case Do(x) => SimpleText(x) + "\n"
    case Loop(k, body) => LoopOpen(k) + StmtsText(body) + LoopClose(k)
    case If(c, thn, els) =>
      "if " + CondText(c) + "\n" + StmtsText(thn)
      + (if els == [] then "" else "else\n" + StmtsText(els)) + "end\n"
    case Unless(c, body) => "unless " + CondText(c) + "\n" + StmtsText(body) + "end\n"
    case When(c, x) => SimpleText(x) + " if " + CondText(c) + "\n"
    case WhenNot(c, x) => SimpleText(x) + " unless " + CondText(c) + "\n"
  }

  function StmtsText(code: seq<Stmt>): string
    decreases code
  {
    if code == [] then "" else StmtText(code[0]) + StmtsText(code[1..])
  }

  /** Appending statements appends their text: this is what lets the
      generator write a routine into one buffer piece by piece. */
  lemma {:induction false} StmtsTextAppend(a: seq<Stmt>, b: seq<Stmt>)
    ensures StmtsText(a + b) == StmtsText(a) + StmtsText(b)
    decreases |a|
  {
    if a != [] {
      assert (a + b)[0] == a[0];
      assert (a + b)[1..] == a[1..] + b;
      StmtsTextAppend(a[1..], b);
    } else {
      assert a + b == b;
    }
  }

  // ---------------------------------------------------------------------
  // Running the statements

  /** Savepoint variables live in `slots`, keyed by the counter value
      they were made from (slot `k` is the variable `SaveName(k)`); a
      routine's other locals and the parser state live in `regs`. */
  datatype Env = Env(regs: Regs, slots: map<nat, nat>)

  /** How a piece of code ends: normally, by `break`, by an evaluation
      error, or without having finished within the fuel. */
  datatype Flow = Next(env: Env) | Broke(env: Env) | Stuck | OutOfFuel

  /** `_tmp = e`. */
  function AssignTmp(c: Ctx, e: Expr, r: Regs): Regs {
    match e
    case GetByteCall => GetByte(c, r)
    case MatchStringCall(lit) => MatchString(c, lit, r)
    case ScanCall(p) => Scan(c, p, r)
    case ApplyCall(m) => Called(r, c.apply(m, ViewOf(r)))
    case InvokeCall(m, a) => Called(r, c.invoke(m, a, ViewOf(r)))
    case ForeignCall(g, m, a) => Called(r, c.foreign(g, m, a, ViewOf(r)))
    case HostCode(code) => r.(tmp := c.host(code, ViewOf(r)))
    case NilLit => r.(tmp := Nil)
    case TrueLit => r.(tmp := True)
    case Negation => r.(tmp := if Truthy(r.tmp) then Nil else True)
    case AryLocal => r.(tmp := Ary(r.ary))
  }

  /** `@result = e`: the same evaluation, stored in `@result`. */
  function AssignResult(c: Ctx, e: Expr, r: Regs): Regs {
    var r1 := AssignTmp(c, e, r);
    r1.(tmp := r.tmp, result := r1.tmp)
  }

  /** The value of a condition; None when it cannot be evaluated (a
      comparison of a non-Integer, or the unparsable `_count == `). */
  function Test(cond: Cond, r: Regs): Option<bool> {
    match cond
    case TmpSet => Some(Truthy(r.tmp))
    case TmpBetween(lo, hi) =>
      (match r.tmp
       case Int(v) => Some(lo <= v <= hi)
       case _ => None)
    case CountIs(Some(n)) => Some(r.count == n)
    case CountIs(None) => None
    case CountAtLeast(n) => Some(r.count >= n)
  }

  function ExecSimple(c: Ctx, s: Simple, env: Env): Flow {
    var r := env.regs;
    match s
    case SetTmp(e) => Next(env.(regs := AssignTmp(c, e, r)))
    case SetResult(e) => Next(env.(regs := AssignResult(c, e, r)))
    case SavePos(slot) => Next(env.(slots := env.slots[slot := r.pos]))
    case RestorePos(slot) =>
      if slot in env.slots then Next(env.(regs := r.(pos := env.slots[slot]))) else Stuck
    case ClearAry => Next(env.(regs := r.(ary := [])))
    case PushResult => Next(env.(regs := r.(ary := r.ary + [r.result])))
    case ResetCount => Next(env.(regs := r.(count := 0)))
    case IncCount => Next(env.(regs := r.(count := r.count + 1)))
    case MarkText => Next(env.(regs := r.(textStart := r.pos)))
    case TakeText => Next(env.(regs := r.(text := Str(GetText(c, r.textStart, r.pos)))))
    case SetTag(name) => Next(env.(regs := r.(tags := r.tags[name := r.result])))
    case RecordFailure(m) => Next(env.(regs := SetFailedRule(r, m)))
    case Break => Broke(env)
  }

  /** Runs a statement. Each iteration of a `while true` loop costs one
      unit of fuel; a loop that has not met a `break` when the fuel runs
      out yields OutOfFuel. */
  function ExecStmt(c: Ctx, s: Stmt, env: Env, fuel: nat): Flow
    decreases fuel, s
  {
    match s
    case Do(x) => ExecSimple(c, x, env)
    case Loop(_, body) =>
      if fuel == 0 then OutOfFuel
      else
        (match ExecSeq(c, body, env, fuel - 1)
         case Broke(e) => Next(e)
         case Next(e) => ExecStmt(c, s, e, fuel - 1)
         case Stuck => Stuck
         case OutOfFuel => OutOfFuel)
    case If(cond, thn, els) =>
      (match Test(cond, env.regs)
       case Some(true) => ExecSeq(c, thn, env, fuel)
       case Some(false) => ExecSeq(c, els, env, fuel)
       case None => Stuck)
    case Unless(cond, body) =>
      (match Test(cond, env.regs)
       case Some(true) => Next(env)
       case Some(false) => ExecSeq(c, body, env, fuel)
       case None => Stuck)
    case When(cond, x) =>
      (match Test(cond, env.regs)
       case Some(true) => ExecSimple(c, x, env)
       case Some(false) => Next(env)
       case None => Stuck)
    case WhenNot(cond, x) =>
      (match Test(cond, env.regs)
       case Some(true) => Next(env)
       case Some(false) => ExecSimple(c, x, env)
       case None => Stuck)
  }

  /** Runs statements in order, stopping at the first one that does not
      end normally. */
  function ExecSeq(c: Ctx, code: seq<Stmt>, env: Env, fuel: nat): Flow
    decreases fuel, code
  {
    if code == [] then Next(env)
    else
      var f := ExecStmt(c, code[0], env, fuel);
      if f.Next? then ExecSeq(c, code[1..], f.env, fuel) else f
  }

  /** Continues with `rest` after a flow that ended normally. */
  function Then(c: Ctx, f: Flow, rest: seq<Stmt>, fuel: nat): Flow {
    if f.Next? then ExecSeq(c, rest, f.env, fuel) else f
  }

  /** Running `a + b` runs `a`, then `b` if `a` ended normally. */
  lemma {:induction false} ExecAppend(c: Ctx, a: seq<Stmt>, b: seq<Stmt>, env: Env, fuel: nat)
    ensures ExecSeq(c, a + b, env, fuel) == Then(c, ExecSeq(c, a, env, fuel), b, fuel)
    decreases |a|
  {
    if a != [] {
      assert (a + b)[0] == a[0];
      assert (a + b)[1..] == a[1..] + b;
      var f := ExecStmt(c, a[0], env, fuel);
      if f.Next? {
        ExecAppend(c, a[1..], b, f.env, fuel);
      }
    } else {
      assert a + b == b;
    }
  }

  /** A single statement run as a sequence. */
  lemma ExecSingle(c: Ctx, s: Stmt, env: Env, fuel: nat)
    ensures ExecSeq(c, [s], env, fuel) == ExecStmt(c, s, env, fuel)
  {
    assert [s][1..] == [];
  }

  /** A loop whose body can never break runs until the fuel is gone: the
      `while true` of a Choice or Sequence with no operands. */
  lemma {:induction false} EmptyLoopDiverges(c: Ctx, k: LoopKind, env: Env, fuel: nat)
    ensures ExecStmt(c, Loop(k, []), env, fuel) == OutOfFuel
    decreases fuel
  {
    if fuel > 0 {
      EmptyLoopDiverges(c, k, env, fuel - 1);
    }
  }
}
