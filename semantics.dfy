/** The meaning of each operator: what the routine written for it does to
    the parser state, stated operator by operator. The module Correctness
    proves that running the statements of Emit.EmitOp has exactly this
    effect; this module proves what the generated parsers promise (ordered
    choice, backtracking, the four repetition forms, lookahead, capture).

    The routine's locals `_ary`, `_count`, `_text_start` and `text` are
    single variables shared by every operator of a rule, as in the
    generated code, so a nested operator of the same kind overwrites them.
    Fuel bounds the number of loop iterations; OutOfFuel stands for a loop
    that has not stopped yet. */
module Semantics {

  import opened Values
  import opened Naming
  import opened Grammar
  import opened Runtime

  datatype Outcome = Done(regs: Regs) | Stuck | OutOfFuel

  /** What the routine for `op` does, started in state `r`. */
  function Eval(c: Ctx, op: Op, r: Regs, fuel: nat): Outcome
    decreases fuel, op, 0
  {
    match op
    case Dot => Done(GetByte(c, r))
    case LiteralString(lit) => Done(MatchString(c, lit, r))
    case LiteralRegexp(p) => Done(Scan(c, p, r))
    case CharRange(s, f) =>
      if |s| == 1 && |f| == 1 then
        var r1 := GetByte(c, r);
        (match r1.tmp
         case Int(b) =>
           if s[0] as int <= b <= f[0] as int then Done(r1) else Done(r1.(pos := r.pos, tmp := Nil))
         case _ => Done(r1))
      else Stuck
    case Choice(ops) =>
      if fuel == 0 || ops == [] then OutOfFuel else EvalChoice(c, ops, r, r.pos, fuel - 1)
    case Multiple(body, min, max, sv) =>
      if min == 0 && max == Some(1) then
        var out := Eval(c, body, r, fuel);
        if !out.Done? || Truthy(out.regs.tmp) then out
        else Done(out.regs.(result := if sv then Nil else out.regs.result, tmp := True, pos := r.pos))
      else if min == 0 && max.None? then
        var out := EvalStar(c, body, sv, if sv then r.(ary := []) else r, fuel);
        if !out.Done? then out else Done(Collected(out.regs, sv))
      else if min == 1 && max.None? then
        var out := Eval(c, body, if sv then r.(ary := []) else r, fuel);
        if !out.Done? then out
        else if !Truthy(out.regs.tmp) then Done(out.regs.(pos := r.pos))
        else
          var more := EvalStar(c, body, sv, Pushed(out.regs, sv), fuel);
          if !more.Done? then more else Done(Collected(more.regs, sv))
      else
        var out := EvalCounted(c, body, max, r.(count := 0), fuel);
        if !out.Done? then out
        else if out.regs.count >= min then Done(out.regs.(tmp := True))
        else Done(out.regs.(pos := r.pos, tmp := Nil))
    case Sequence(ops) =>
      if fuel == 0 || ops == [] then OutOfFuel else EvalSequence(c, ops, r, r.pos, fuel - 1)
    case AndPredicate(inner) =>
      var out := EvalPredicateBody(c, inner, r, fuel);
      if !out.Done? then out else Done(out.regs.(pos := r.pos))
    case NotPredicate(inner) =>
      var out := EvalPredicateBody(c, inner, r, fuel);
      if !out.Done? then out
      else Done(out.regs.(tmp := if Truthy(out.regs.tmp) then Nil else True, pos := r.pos))
    case RuleReference(name) => Done(Called(r, c.apply(MethodName(name), ViewOf(r))))
    case InvokeRule(name, args) => Done(Called(r, c.invoke(MethodName(name), args, ViewOf(r))))
    case ForeignInvokeRule(g, name, args) =>
      Done(Called(r, c.foreign(g, MethodName(name), args, ViewOf(r))))
    case Tag(inner, name) =>
      var out := Eval(c, inner, r, fuel);
      if !out.Done? || name == "" then out
      else Done(out.regs.(tags := out.regs.tags[name := out.regs.result]))
    case Action(code) => Done(r.(result := c.host(code, ViewOf(r)), tmp := True))
    case Collect(inner) =>
      var out := Eval(c, inner, r.(textStart := r.pos), fuel);
      if !out.Done? || !Truthy(out.regs.tmp) then out
      else Done(out.regs.(text := Str(GetText(c, out.regs.textStart, out.regs.pos))))
  }

  /** `_ary << @result` when values are collected. */
  function Pushed(r: Regs, sv: bool): Regs {
    if sv then r.(ary := r.ary + [r.result]) else r
  }

  /** The end of an unbounded repetition: `_tmp = true` and, when values are
      collected, `@result = _ary`. */
  function Collected(r: Regs, sv: bool): Regs {
    r.(tmp := True, result := if sv then Ary(r.ary) else r.result)
  }

  /** A predicate's operand: inline action code is evaluated for its value
      only; anything else runs as usual. */
  function EvalPredicateBody(c: Ctx, op: Op, r: Regs, fuel: nat): Outcome
    decreases fuel, op, 1
  {
    if op.Action? then Done(r.(tmp := c.host(op.action, ViewOf(r)))) else Eval(c, op, r, fuel)
  }

  /** The alternatives of a Choice from `ops[0]` on; `start` is the
      savepoint. */
  function EvalChoice(c: Ctx, ops: seq<Op>, r: Regs, start: nat, fuel: nat): Outcome
    requires ops != []
    decreases fuel, ops, 0
  {
    var out := Eval(c, ops[0], r, fuel);
    if !out.Done? || Truthy(out.regs.tmp) then out
    else if |ops| == 1 then Done(out.regs.(pos := start))
    else EvalChoice(c, ops[1..], out.regs.(pos := start), start, fuel)
  }

  /** The elements of a Sequence from `ops[0]` on; `start` is the
      savepoint. */
  function EvalSequence(c: Ctx, ops: seq<Op>, r: Regs, start: nat, fuel: nat): Outcome
    requires ops != []
    decreases fuel, ops, 0
  {
    var out := Eval(c, ops[0], r, fuel);
    if !out.Done? then out
    else if !Truthy(out.regs.tmp) then Done(out.regs.(pos := start))
    else if |ops| == 1 then out
    else EvalSequence(c, ops[1..], out.regs, start, fuel)
  }

  /** The greedy loop of (0,*) and (1,*): run the operand until it fails,
      collecting `@result` after each success when `sv` is set. */
  function EvalStar(c: Ctx, body: Op, sv: bool, r: Regs, fuel: nat): Outcome
    decreases fuel, body, 0
  {
    if fuel == 0 then OutOfFuel
    else
      var out := Eval(c, body, r, fuel - 1);
      if !out.Done? then out
      else if !Truthy(out.regs.tmp) then out
      else EvalStar(c, body, sv, Pushed(out.regs, sv), fuel - 1)
  }

  /** The loop of a bounded repetition: count successes, stop at the first
      failure or when the count reaches the maximum. With no maximum the
      `_count == ` test cannot be evaluated. */
  function EvalCounted(c: Ctx, body: Op, max: Option<nat>, r: Regs, fuel: nat): Outcome
    decreases fuel, body, 0
  {
    if fuel == 0 then OutOfFuel
    else
      var out := Eval(c, body, r, fuel - 1);
      if !out.Done? || !Truthy(out.regs.tmp) then out
      else
        var r1 := out.regs.(count := out.regs.count + 1);
        match max
        case None => Stuck
        case Some(m) => if r1.count == m then Done(r1) else EvalCounted(c, body, max, r1, fuel - 1)
  }
}
