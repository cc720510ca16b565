/** What `output` writes (lib/kpeg/code_generator.rb:247-342), as a
    function of the generator's settings: the class header (standalone or
    subclassing KPeg::CompiledParser), the setup blocks, the
    `setup_foreign_grammar` method, one routine per rule in rule order and
    the `Rules` table. The routine section and the table are built from
    one text per rule, and every routine's code is written with the
    savepoint counter back at zero. */
module Assembly {

  import opened Values
  import opened Strings
  import opened Naming
  import opened Grammar
  import opened Runtime
  import opened Ruby
  import opened Emit
  import opened Semantics
  import opened Correctness

  /** The contents of the two runtime files a standalone parser copies its
      code from (compiled_parser.rb and position.rb, next to the
      generator). */
  datatype Library = Library(compiledParser: string, position: string)

  /** The grammar renderer: the grammar text of an operator, and the
      escaping applied before it goes into a string literal. */
  datatype Renderer = Renderer(render: Op -> string, escape: string -> string)

  const StartMarker: string := "# STANDALONE START"
  const EndMarker: string := "# STANDALONE END"
  const PositionInclude: string := "include Position"
  const RequireLine: string := "require 'kpeg/compiled_parser'\n\n"

  // ---------------------------------------------------------------------
  // Joining texts

  /** The texts one after the other. */
  function Concat(xs: seq<string>): string
  {
    if xs == [] then "" else Concat(xs[..|xs| - 1]) + xs[|xs| - 1]
  }

  lemma ConcatSnoc(xs: seq<string>, x: string)
    ensures Concat(xs + [x]) == Concat(xs) + x
  {
    assert (xs + [x])[..|xs|] == xs;
  }

  lemma {:induction false} ConcatAppend(xs: seq<string>, ys: seq<string>)
    ensures Concat(xs + ys) == Concat(xs) + Concat(ys)
    decreases |ys|
  {
    if ys == [] {
      assert xs + ys == xs;
    } else {
      var init := ys[..|ys| - 1];
      assert xs + ys == (xs + init) + [ys[|ys| - 1]];
      ConcatSnoc(xs + init, ys[|ys| - 1]);
      ConcatAppend(xs, init);
      ConcatSnoc(init, ys[|ys| - 1]);
      assert ys == init + [ys[|ys| - 1]];
    }
  }

  /** Joining one more text of a sequence appends it. */
  lemma ConcatPrefix(xs: seq<string>, i: nat)
    requires i < |xs|
    ensures Concat(xs[..i + 1]) == Concat(xs[..i]) + xs[i]
  {
    assert xs[..i + 1][..i] == xs[..i];
  }

  /** Each text sits in the joined text right after the ones before it. */
  lemma ConcatSplit(xs: seq<string>, i: nat)
    requires i < |xs|
    ensures Concat(xs) == Concat(xs[..i]) + xs[i] + Concat(xs[i + 1..])
  {
    assert xs == xs[..i + 1] + xs[i + 1..];
    ConcatAppend(xs[..i + 1], xs[i + 1..]);
    ConcatPrefix(xs, i);
  }

  /** Where the text at index `i` starts, and that later texts start after
      it ends. */
  lemma ConcatOrder(xs: seq<string>, i: nat, j: nat)
    requires i < j < |xs|
    ensures |Concat(xs[..i])| + |xs[i]| <= |Concat(xs[..j])|
  {
    assert xs[..j] == (xs[..i] + [xs[i]]) + xs[i + 1..j];
    ConcatAppend(xs[..i] + [xs[i]], xs[i + 1..j]);
    ConcatSnoc(xs[..i], xs[i]);
  }

  // ---------------------------------------------------------------------
  // The standalone region

  /** `standalone_region`: the text from the first `# STANDALONE START` to
      the first character of the first `# STANDALONE END`, both included
      (Ruby's inclusive `cp[start..fin]`); empty when the end marker comes
      first; None when either marker is missing. */
  function StandaloneRegion(file: string): (r: Option<string>)
    ensures r.Some? <==> IndexOf(file, StartMarker).Some? && IndexOf(file, EndMarker).Some?
  {
    match (IndexOf(file, StartMarker), IndexOf(file, EndMarker))
    case (Some(start), Some(fin)) => Some(if start <= fin then file[start..fin + 1] else "")
    case _ => None
  }

  /** No character of the start marker after its first is a `#`. */
  lemma StartMarkerHashFree(j: nat)
    requires 1 <= j < |StartMarker|
    ensures StartMarker[j] != '#'
  {
  }

  /** The two markers differ at their fourteenth character. */
  lemma MarkerLetters(file: string, p: nat)
    ensures OccursAt(file, StartMarker, p) ==> file[p + 13] == 'S'
    ensures OccursAt(file, EndMarker, p) ==> file[p + 13] == 'E'
  {
  }

  /** When the end marker follows the start marker, the region holds the
      whole start marker and ends with the `#` that opens the end marker. */
  lemma RegionShape(file: string)
    requires IndexOf(file, StartMarker).Some? && IndexOf(file, EndMarker).Some?
    requires IndexOf(file, StartMarker).value <= IndexOf(file, EndMarker).value
    ensures var region := StandaloneRegion(file).value;
            && |StartMarker| < |region|
            && region[..|StartMarker|] == StartMarker
            && region[|region| - 1] == '#'
  {
    var start := IndexOf(file, StartMarker).value;
    var fin := IndexOf(file, EndMarker).value;
    assert file[fin] == EndMarker[0] == '#';
    if fin < start + |StartMarker| {
      assert file[start..start + |StartMarker|] == StartMarker;
      if fin == start {
        MarkerLetters(file, start);
        assert false;
      } else {
        assert file[fin] == StartMarker[fin - start];
        StartMarkerHashFree(fin - start);
        assert false;
      }
    }
    var region := file[start..fin + 1];
    assert region[..|StartMarker|] == file[start..start + |StartMarker|];
  }

  // ---------------------------------------------------------------------
  // The pieces of the output

  /** The class header. A standalone parser copies the runtime's region
      with position.rb's region put in place of `include Position`; a
      missing region in compiled_parser.rb ends the generator, and one in
      position.rb makes the replacement fail. */
  function Header(name: string, standalone: bool, lib: Library): (r: Result<string>)
    ensures r.Err? <==> standalone && (StandaloneRegion(lib.compiledParser).None? || StandaloneRegion(lib.position).None?)
    ensures r.Ok? && !standalone ==> r.value == RequireLine + "class " + name + " < KPeg::CompiledParser\n"
    ensures r.Ok? && standalone ==> "class " + name + "\n" <= r.value
  {
    if standalone then
      match (StandaloneRegion(lib.compiledParser), StandaloneRegion(lib.position))
      case (None, _) => Err("Standalone failure. Check compiler_parser.rb for proper boundary comments")
      case (Some(_), None) => Err("Standalone failure. Check position.rb for proper boundary comments")
      case (Some(cp), Some(pp)) => Ok("class " + name + "\n" + ReplaceAll(cp, PositionInclude, pp) + "\n")
    else
      Ok(RequireLine + "class " + name + " < KPeg::CompiledParser\n")
  }

  /** One setup block, set off by blank lines. */
  function SetupText(action: string): string {
    "\n" + action + "\n\n"
  }

  function SetupPieces(actions: seq<string>): (ps: seq<string>)
    ensures |ps| == |actions| && forall i :: 0 <= i < |actions| ==> ps[i] == SetupText(actions[i])
  {
    seq(|actions|, i requires 0 <= i < |actions| => SetupText(actions[i]))
  }

  /** The line that creates the foreign grammar `alias`. */
  function ForeignLine(fg: (string, string)): string {
    "    @_grammar_" + fg.0 + " = " + fg.1 + ".new(nil)\n"
  }

  function ForeignPieces(fgs: seq<(string, string)>): (ps: seq<string>)
    ensures |ps| == |fgs| && forall i :: 0 <= i < |fgs| ==> ps[i] == ForeignLine(fgs[i])
  {
    seq(|fgs|, i requires 0 <= i < |fgs| => ForeignLine(fgs[i]))
  }

  const EmptyForeignSetup: string := "  def setup_foreign_grammar; end\n"
  const ForeignSetupOpen: string := "  def setup_foreign_grammar\n"
  const ForeignSetupClose: string := "  end\n"

  /** `setup_foreign_grammar`: an empty one for a standalone parser without
      foreign grammars, none for a subclass of KPeg::CompiledParser without
      them (it inherits one), and otherwise one line per foreign grammar. */
  function ForeignSetup(fgs: seq<(string, string)>, standalone: bool): string {
    if fgs == [] then (if standalone then EmptyForeignSetup else "")
    else ForeignSetupOpen + Concat(ForeignPieces(fgs)) + ForeignSetupClose
  }

  /** The grammar text of a rule's operator on one line, as it appears in
      the comment above its routine. */
  function Rendering(rd: Renderer, op: Op): string {
    ReplaceAll(rd.render(op), "\n", " ")
  }

  /** The `def` line, with the rule's parameters when it declares any. */
  function DefLine(name: string, arguments: Option<seq<string>>): string {
    match arguments
    case None => "  def " + MethodName(name) + "\n"
    case Some(params) => "  def " + MethodName(name) + "(" + Join(params, ",") + ")\n"
  }

  /** A routine's statements: the operator's code, then the failure is
      recorded under the routine's name unless `_tmp` is set. */
  function RoutineBody(routine: string, code: seq<Stmt>): seq<Stmt> {
    code + [WhenNot(TmpSet, RecordFailure(routine))]
  }

  function RoutineText(name: string, rule: Rule, rendering: string, code: seq<Stmt>): string {
    RoutineHead(name, rule, rendering)
    + StmtsText(RoutineBody(MethodName(name), code))
    + "return _tmp\n" + "  end\n"
  }

  /** A blank line, the comment showing the rule, and the `def` line. */
  function RoutineHead(name: string, rule: Rule, rendering: string): string {
    "\n" + CommentLine(name, rendering) + DefLine(name, rule.arguments)
  }

  function CommentLine(name: string, rendering: string): string {
    "  # " + name + " = " + rendering + "\n"
  }

  /** The routine for the rule called `name`, its savepoints numbered from
      zero. A name the grammar does not define, or an operator the
      generator refuses, is an error. */
  function Routine(g: Grammar, rd: Renderer, name: string): (r: Result<string>)
    ensures r.Ok? <==> name in g.rules && EmitOp(g.rules[name].op, 0).Ok?
  {
    if name !in g.rules then Err("no rule " + name)
    else
      var rule := g.rules[name];
      var e :- EmitOp(rule.op, 0);
      Ok(RoutineText(name, rule, Rendering(rd, rule.op), e.code))
  }

  /** `f` applied to each element in turn, stopping at the first error. */
  function Traverse<T>(f: T -> Result<string>, xs: seq<T>): (r: Result<seq<string>>)
    ensures r.Ok? <==> forall i :: 0 <= i < |xs| ==> f(xs[i]).Ok?
    ensures r.Ok? ==> |r.value| == |xs| && forall i :: 0 <= i < |xs| ==> r.value[i] == f(xs[i]).value
    decreases |xs|
  {
    if xs == [] then Ok([])
    else
      var init := xs[..|xs| - 1];
      assert forall i :: 0 <= i < |init| ==> init[i] == xs[i];
      match Traverse(f, init)
      case Err(e) => Err(e)
      case Ok(rs) =>
        match f(xs[|xs| - 1])
        case Err(e) => Err(e)
        case Ok(last) =>
          assert forall i :: 0 <= i < |init| ==> (rs + [last])[i] == rs[i];
          Ok(rs + [last])
  }

  /** The routines for `order`, stopping at the first that fails. */
  function Routines(g: Grammar, rd: Renderer, order: seq<string>): (r: Result<seq<string>>)
    ensures r.Ok? <==> forall i :: 0 <= i < |order| ==> Routine(g, rd, order[i]).Ok?
    ensures r.Ok? ==> |r.value| == |order| && forall i :: 0 <= i < |order| ==> r.value[i] == Routine(g, rd, order[i]).value
  {
    Traverse(name => Routine(g, rd, name), order)
  }

  /** One entry of the `Rules` table: the routine's name, the rule's name
      and its escaped grammar text. */
  function TableEntry(g: Grammar, rd: Renderer, name: string): string
    requires name in g.rules
  {
    TableLine(name, rd.escape(Rendering(rd, g.rules[name].op)))
  }

  function TableLine(name: string, escaped: string): string {
    "  Rules[:" + MethodName(name) + "] = rule_info(\"" + name + "\", \"" + escaped + "\")\n"
  }

  function TablePieces(g: Grammar, rd: Renderer, order: seq<string>): (ps: seq<string>)
    requires forall i :: 0 <= i < |order| ==> order[i] in g.rules
    ensures |ps| == |order| && forall i :: 0 <= i < |order| ==> ps[i] == TableEntry(g, rd, order[i])
  {
    seq(|order|, i requires 0 <= i < |order| => TableEntry(g, rd, order[i]))
  }

  const TableOpen: string := "\n  Rules = {}\n"
  const ClassClose: string := "end\n"

  /** Everything before the routines: header, setup blocks and
      `setup_foreign_grammar`. */
  function Front(head: string, g: Grammar, standalone: bool): string {
    head + Concat(SetupPieces(g.setupActions)) + ForeignSetup(g.foreignGrammars, standalone)
  }

  /** Everything after the routines: the `Rules` table and the end of the
      class. */
  function Back(g: Grammar, rd: Renderer): string
    requires forall i :: 0 <= i < |g.ruleOrder| ==> g.ruleOrder[i] in g.rules
  {
    TableOpen + Concat(TablePieces(g, rd, g.ruleOrder)) + ClassClose
  }

  /** The whole parser source `output` returns, or why there is none. */
  function Assemble(name: string, g: Grammar, standalone: bool, lib: Library, rd: Renderer): (r: Result<string>)
    ensures r.Ok? <==> Header(name, standalone, lib).Ok? && Routines(g, rd, g.ruleOrder).Ok?
  {
    var head :- Header(name, standalone, lib);
    var rs :- Routines(g, rd, g.ruleOrder);
    Ok(Front(head, g, standalone) + Concat(rs) + Back(g, rd))
  }

  /** Regrouping five texts around the middle one. */
  lemma Regroup(f: string, a: string, m: string, b: string, k: string)
    ensures f + (a + m + b) + k == (f + a) + m + (b + k)
  {
  }

  // ---------------------------------------------------------------------
  // Properties of the output

  /** The output exists exactly when the header can be written and every
      rule in rule order is defined and has an operator the generator
      accepts. */
  lemma AssembleSucceeds(name: string, g: Grammar, standalone: bool, lib: Library, rd: Renderer)
    ensures Assemble(name, g, standalone, lib, rd).Ok? <==>
            && !(standalone && (StandaloneRegion(lib.compiledParser).None? || StandaloneRegion(lib.position).None?))
            && forall i :: 0 <= i < |g.ruleOrder| ==>
                 g.ruleOrder[i] in g.rules && EmitOp(g.rules[g.ruleOrder[i]].op, 0).Ok?
  {
  }

  /** A `setup_foreign_grammar` method is written exactly when there are
      foreign grammars or the parser is standalone. */
  lemma ForeignSetupWritten(fgs: seq<(string, string)>, standalone: bool)
    ensures ForeignSetup(fgs, standalone) != "" <==> fgs != [] || standalone
  {
  }

  /** Where the line creating the `i`-th foreign grammar starts. */
  function ForeignLineOffset(fgs: seq<(string, string)>, i: nat): nat
    requires i <= |fgs|
  {
    |ForeignSetupOpen| + |Concat(ForeignPieces(fgs)[..i])|
  }

  /** `setup_foreign_grammar` creates every foreign grammar, in insertion
      order: the line for the `i`-th sits at its offset. */
  lemma ForeignLinePlaced(fgs: seq<(string, string)>, standalone: bool, i: nat)
    returns (before: string, after: string)
    requires i < |fgs|
    ensures ForeignSetup(fgs, standalone) == before + ForeignLine(fgs[i]) + after
    ensures |before| == ForeignLineOffset(fgs, i)
  {
    var ps := ForeignPieces(fgs);
    ConcatSplit(ps, i);
    Regroup(ForeignSetupOpen, Concat(ps[..i]), ps[i], Concat(ps[i + 1..]), ForeignSetupClose);
    before, after := ForeignSetupOpen + Concat(ps[..i]), Concat(ps[i + 1..]) + ForeignSetupClose;
  }

  /** The `i`-th foreign grammar is created before the `j`-th. */
  lemma ForeignLinesInOrder(fgs: seq<(string, string)>, i: nat, j: nat)
    requires i < j < |fgs|
    ensures ForeignLineOffset(fgs, i) + |ForeignLine(fgs[i])| <= ForeignLineOffset(fgs, j)
  {
    ConcatOrder(ForeignPieces(fgs), i, j);
  }

  /** Where the routine of the `i`-th rule starts in the output: after the
      header, the setup blocks, `setup_foreign_grammar` and the routines
      of the rules before it. */
  function RoutineOffset(name: string, g: Grammar, standalone: bool, lib: Library, rd: Renderer, i: nat): nat
    requires Assemble(name, g, standalone, lib, rd).Ok? && i <= |g.ruleOrder|
  {
    |Front(Header(name, standalone, lib).value, g, standalone)| + |Concat(Routines(g, rd, g.ruleOrder).value[..i])|
  }

  /** Every rule in rule order has its routine in the output, at its
      offset (the `i`-th of Routines is the routine of the `i`-th rule,
      by the contract of Routines). */
  lemma RoutinePlaced(name: string, g: Grammar, standalone: bool, lib: Library, rd: Renderer, i: nat)
    returns (before: string, after: string)
    requires Assemble(name, g, standalone, lib, rd).Ok? && i < |g.ruleOrder|
    ensures Assemble(name, g, standalone, lib, rd).value == before + Routines(g, rd, g.ruleOrder).value[i] + after
    ensures |before| == RoutineOffset(name, g, standalone, lib, rd, i)
  {
    var rs := Routines(g, rd, g.ruleOrder).value;
    var front, back := Front(Header(name, standalone, lib).value, g, standalone), Back(g, rd);
    AssembleText(name, g, standalone, lib, rd);
    ConcatSplit(rs, i);
    Regroup(front, Concat(rs[..i]), rs[i], Concat(rs[i + 1..]), back);
    before, after := front + Concat(rs[..i]), Concat(rs[i + 1..]) + back;
  }

  /** The output is its front, the routines and its back. */
  lemma AssembleText(name: string, g: Grammar, standalone: bool, lib: Library, rd: Renderer)
    requires Assemble(name, g, standalone, lib, rd).Ok?
    ensures forall i :: 0 <= i < |g.ruleOrder| ==> g.ruleOrder[i] in g.rules
    ensures Assemble(name, g, standalone, lib, rd).value
            == Front(Header(name, standalone, lib).value, g, standalone)
               + Concat(Routines(g, rd, g.ruleOrder).value) + Back(g, rd)
  {
  }

  /** The routine of an earlier rule ends before that of a later one
      starts. */
  lemma RoutinesInRuleOrder(name: string, g: Grammar, standalone: bool, lib: Library, rd: Renderer, i: nat, j: nat)
    requires Assemble(name, g, standalone, lib, rd).Ok? && i < j < |g.ruleOrder|
    ensures RoutineOffset(name, g, standalone, lib, rd, i) + |Routines(g, rd, g.ruleOrder).value[i]|
            <= RoutineOffset(name, g, standalone, lib, rd, j)
  {
    var rs := Routines(g, rd, g.ruleOrder).value;
    ConcatOrder(rs, i, j);
  }

  /** What a routine does when it runs: its operator's effect and then, if
      `_tmp` is not set, the failure recorded under the routine's name
      (its statements agree with Semantics.Eval, Correctness.EmitCorrect). */
  lemma RoutineRuns(c: Ctx, name: string, op: Op, env: Env, fuel: nat)
    requires EmitOp(op, 0).Ok?
    ensures var run := ExecSeq(c, RoutineBody(MethodName(name), EmitOp(op, 0).value.code), env, fuel);
            var o := Eval(c, op, env.regs, fuel);
            && (o.Stuck? ==> run.Stuck?)
            && (o.OutOfFuel? ==> run.OutOfFuel?)
            && (o.Done? ==>
                  && run.Next?
                  && run.env.regs == if Truthy(o.regs.tmp) then o.regs else SetFailedRule(o.regs, MethodName(name)))
  {
    var code := EmitOp(op, 0).value.code;
    EmitCorrect(c, op, 0, env, fuel);
    ExecAppend(c, code, [WhenNot(TmpSet, RecordFailure(MethodName(name)))], env, fuel);
    var f := ExecSeq(c, code, env, fuel);
    if f.Next? {
      ExecSingle(c, WhenNot(TmpSet, RecordFailure(MethodName(name))), f.env, fuel);
    }
  }
}
