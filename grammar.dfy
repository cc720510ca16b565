/** The grammar the generator reads: operator trees, rules and the
    grammar object (the classes `output_op` and `output` dispatch on in
    lib/kpeg/code_generator.rb). */
module Grammar {

  import opened Values

  /** One node of a rule's operator tree, one constructor per class
      `output_op` handles. A rule name is the grammar's own name, before
      mangling; arguments are the Ruby source text written at the call
      site, parentheses included. */
  datatype Op =
    | Dot
    | LiteralString(text: seq<byte>)
    | LiteralRegexp(source: string)
    | CharRange(start: seq<byte>, fin: seq<byte>)
    | Choice(ops: seq<Op>)
    | Multiple(op: Op, min: nat, max: Option<nat>, saveValues: bool)
    | Sequence(ops: seq<Op>)
    | AndPredicate(op: Op)
    | NotPredicate(op: Op)
    | RuleReference(ruleName: string)
    | InvokeRule(ruleName: string, arguments: Option<string>)
    | ForeignInvokeRule(grammarName: string, ruleName: string, arguments: Option<string>)
    | Tag(op: Op, tagName: string)
    | Action(action: string)
    | Collect(op: Op)

  /** A named rule; `arguments` are its declared parameter names. */
  datatype Rule = Rule(name: string, op: Op, arguments: Option<seq<string>>)

  /** The grammar: its rules by name, the order they are emitted in, the
      verbatim setup blocks, and the foreign grammars as (alias, class)
      pairs in insertion order. */
  datatype Grammar = Grammar(
    rules: map<string, Rule>,
    ruleOrder: seq<string>,
    setupActions: seq<string>,
    foreignGrammars: seq<(string, string)>)
}
