# kpeg code generator, modelled in Dafny

kpeg is a parsing-expression-grammar (PEG) tool for Ruby. Its back end,
`KPeg::CodeGenerator`, turns a grammar into the Ruby source of a parser
class. Each rule becomes a routine (`def _rule`). The routine's body is
written by `output_op`, one operator at a time. It uses savepoint
variables (`_save`, `_save1`, ...) to backtrack, and the
`while true ... break` idiom for choices, sequences and loops. `output`
puts the whole class together:

- the class header (standalone or inheriting from `KPeg::CompiledParser`);
- the verbatim setup blocks;
- `setup_foreign_grammar`;
- one routine per rule, in rule order;
- the `Rules` table.

`output` caches its result.

The model has two levels:

- **Emit.EmitOp** describes the statements written for an operator as
  data (`Ruby.Stmt`).
  - `Ruby.StmtsText` gives their text.
  - `Ruby.ExecSeq` says what they do when the generated routine runs.
- **Semantics.Eval** is an independent reference semantics of each PEG
  operator.
  - **Correctness.EmitCorrect** proves that the emitted statements
    have exactly the effect `Eval` gives the operator.
  - **Properties** proves what PEG promises about each operator, stated
    on `Eval`: ordered choice, backtracking, repetition, lookahead,
    capture.

The imperative side is the class **Generator.CodeGenerator**:

- `Save` and `ResetSaves` update the savepoint counter.
- `OutputOp` appends to a code buffer and moves the counter.
- `Output` writes the whole class once and caches it.

Each method is proved against the specification functions. The code it
appends is `StmtsText(EmitOp(...).code)`, and the text `Output` returns
is `Assembly.Assemble(...)`. The Assembly lemmas give where each piece
sits in that text and in what order.

Things the code does that a reader might not expect, and which the model
follows:

- **The standalone region includes its end marker's first character.**
  `standalone_region` slices from the start marker up to and including
  the first character of the end marker (Ruby's inclusive `start..fin`).
  It is not the text strictly between the markers.
- **A missing region fails in two different ways.**
  - If `compiled_parser.rb` has no region, the generator prints a message
    and exits.
  - If `position.rb` has no region, it only prints. The `gsub!` that
    follows is then given `nil` as its replacement and raises.
  - Both become an `Err` here.
- **`method_name` is not reversible.** It maps a rule `u-v` and a rule
  `u_hyphen_v` to the same routine name (`Naming.MethodNameCollision`).
  The model proves the round trip only for names without underscores
  (`Naming.MethodNameRoundTrip`).
- **Nested repetitions share locals.** Nested repetitions share the
  routine locals `_ary` and `_count`, and nested captures share
  `_text_start`. The properties that need a local to survive an operand
  therefore assume the operand does not write it (`Properties.Touches`).
- **A repetition with a minimum of 2 or more and no maximum breaks the
  generated parser.** Its count test is written as `break if _count == `
  with nothing after `==`, and the next line is `else`, so the generated
  Ruby does not parse at all. The model has no notion of a file that
  does not parse. Its reference semantics and its interpreter get stuck
  only when that count test is reached, after the operand's first
  success (`Properties.UnboundedNeedsMax`). If the first attempt fails,
  the repetition fails normally with the position restored.
- **The cache ignores later settings.** A cached output is returned even
  if `standalone` changed after it was written.

## Model

| member | source | states |
|---|---|---|
| Naming.MethodName | lib/kpeg/code_generator.rb:17-20 | a routine name starts with `_` and contains no `-` |
| Naming.MethodNameRoundTrip | lib/kpeg/code_generator.rb:17-20 | for rule names without `_`, the rule name can be read back from its routine name |
| Naming.MethodNameInjective | lib/kpeg/code_generator.rb:17-20 | distinct underscore-free rule names get distinct routine names |
| Naming.MethodNameCollision | lib/kpeg/code_generator.rb:17-20 | `u-v` and `u_hyphen_v` are different rules with the same routine name |
| Naming.SaveName | lib/kpeg/code_generator.rb:22-31 | every savepoint name starts with `_save`, and is exactly `_save` iff the counter is 0 |
| Naming.SaveNameRoundTrip | lib/kpeg/code_generator.rb:22-31 | the counter can be read back from the savepoint name |
| Naming.SaveNameInjective | lib/kpeg/code_generator.rb:22-31 | distinct counter values give distinct savepoint variables |
| Strings.Decimal | lib/kpeg/code_generator.rb:26 | `"#{n}"` is a non-empty digit string without a leading zero for n > 0 |
| Strings.DecimalRoundTrip | lib/kpeg/code_generator.rb:26 | the printed counter parses back to the same number |
| Strings.ReplaceAllRemoves | lib/kpeg/code_generator.rb:18 | `gsub` of a character by text without it leaves none of that character |
| Strings.IndexFrom | lib/kpeg/code_generator.rb:240-241 | `index` returns the first occurrence at or after the start, or none when there is no occurrence |
| Generator.CodeGenerator.constructor | lib/kpeg/code_generator.rb:6-13 | a new generator has its name and grammar, is not standalone, has counter 0 and no cached output |
| Generator.CodeGenerator.SetStandalone | lib/kpeg/code_generator.rb:15 | sets the standalone flag |
| Generator.CodeGenerator.Save | lib/kpeg/code_generator.rb:22-31 | returns the savepoint named after the old counter (`_save` for 0, `_save<k>` after) and increments the counter by one |
| Generator.CodeGenerator.ResetSaves | lib/kpeg/code_generator.rb:33-35 | the counter is 0 again |
| Emit.EmitOp | lib/kpeg/code_generator.rb:37-236 | the statements for an operator number their savepoints from the counter on entry; the counter never goes down |
| Generator.CodeGenerator.OutputOp | lib/kpeg/code_generator.rb:37-236 | appends exactly the text of `EmitOp(op, counter)` to the buffer and leaves the counter at its `next`; fails exactly when `EmitOp` does |
| Generator.CodeGenerator.OutputRange | lib/kpeg/code_generator.rb:46-68 | takes a savepoint before checking the endpoints; writes the range test for one-byte endpoints; any other endpoint is an error |
| Generator.CodeGenerator.OutputChoice | lib/kpeg/code_generator.rb:69-82 | writes the savepoint and the `# choice` loop around the alternatives, as `EmitOp` of the Choice |
| Generator.CodeGenerator.OutputChoiceArms | lib/kpeg/code_generator.rb:73-81 | writes each alternative in order with `break if _tmp` and a restore; only the last adds a `break`; a failing alternative stops the writing with an error |
| Generator.CodeGenerator.OutputSequence | lib/kpeg/code_generator.rb:159-178 | writes the savepoint and the `# sequence` loop around the elements, as `EmitOp` of the Sequence |
| Generator.CodeGenerator.OutputSequenceArms | lib/kpeg/code_generator.rb:163-177 | writes each element in order, then a restore and a break when it fails; the last element always breaks |
| Generator.CodeGenerator.OutputMultiple | lib/kpeg/code_generator.rb:83-157 | takes one savepoint, then dispatches on (min,max) to the four repetition shapes, as `EmitOp` of the Multiple |
| Generator.CodeGenerator.OutputOptional | lib/kpeg/code_generator.rb:85-94 | (0,1): writes the operand; on failure `@result` is reset when values are saved, and `_tmp` is set true before the position goes back to the savepoint |
| Generator.CodeGenerator.OutputStar | lib/kpeg/code_generator.rb:95-111 | (0,*): writes the greedy loop that collects into `_ary`, then `_tmp = true` |
| Generator.CodeGenerator.OutputPlus | lib/kpeg/code_generator.rb:112-137 | (1,*): writes the operand twice, once for the first attempt and once inside the loop, with two consecutive savepoint ranges |
| Generator.CodeGenerator.OutputCounted | lib/kpeg/code_generator.rb:138-156 | bounded repetition: writes the counting loop and the `_count >= min` verdict |
| Generator.CodeGenerator.OutputLookahead | lib/kpeg/code_generator.rb:179-197 | `&`/`!`: writes a savepoint, then the inline action or the operand, then the negation for `!`, then the restore |
| Generator.CodeGenerator.OutputTag | lib/kpeg/code_generator.rb:212-218 | writes the operand and, for a non-empty tag name, the binding of `@result` to it |
| Generator.CodeGenerator.OutputCollect | lib/kpeg/code_generator.rb:226-231 | writes `_text_start`, the operand, and the `text = get_text` taken on success |
| Correctness.EmitCorrect | lib/kpeg/code_generator.rb:37-236 | running the code written for any operator has the effect the reference semantics gives it, and touches only savepoints numbered from the entry counter on |
| Correctness.ActionCorrect | lib/kpeg/code_generator.rb:219-225 | the code for an action agrees with `Eval` |
| Correctness.RangeCorrect | lib/kpeg/code_generator.rb:46-68 | the code for a byte range agrees with `Eval` |
| Correctness.ChoiceCorrect | lib/kpeg/code_generator.rb:69-82 | the code for a Choice agrees with `Eval` |
| Correctness.ChoiceArmsCorrect | lib/kpeg/code_generator.rb:73-81 | the alternatives, run inside the choice loop, agree with `EvalChoice` |
| Correctness.SequenceCorrect | lib/kpeg/code_generator.rb:159-178 | the code for a Sequence agrees with `Eval` |
| Correctness.SequenceArmsCorrect | lib/kpeg/code_generator.rb:163-177 | the elements, run inside the sequence loop, agree with `EvalSequence` |
| Correctness.OptionalCorrect | lib/kpeg/code_generator.rb:85-94 | the code for (0,1) agrees with `Eval` |
| Correctness.StarCorrect | lib/kpeg/code_generator.rb:95-111 | the code for (0,*) agrees with `Eval` |
| Correctness.StarLoopCorrect | lib/kpeg/code_generator.rb:100-106 | the greedy loop agrees with `EvalStar` |
| Correctness.PlusCorrect | lib/kpeg/code_generator.rb:112-137 | the code for (1,*) agrees with `Eval` |
| Correctness.CountedCorrect | lib/kpeg/code_generator.rb:138-156 | the code for a bounded repetition agrees with `Eval` |
| Correctness.CountedLoopCorrect | lib/kpeg/code_generator.rb:141-150 | the counting loop agrees with `EvalCounted` |
| Correctness.AndCorrect | lib/kpeg/code_generator.rb:179-187 | the code for `&` agrees with `Eval` |
| Correctness.NotCorrect | lib/kpeg/code_generator.rb:188-197 | the code for `!` agrees with `Eval` |
| Correctness.TagCorrect | lib/kpeg/code_generator.rb:212-218 | the code for a tag agrees with `Eval` |
| Correctness.CollectCorrect | lib/kpeg/code_generator.rb:226-231 | the code for a capture agrees with `Eval` |
| Properties.EvalKeeps | lib/kpeg/code_generator.rb:95-156 | an operator that does not write one of the shared locals `_ary`, `_count`, `_text_start` or `text` leaves it unchanged |
| Properties.RangeMatches | lib/kpeg/code_generator.rb:46-68 | a range succeeds iff the next byte lies between its endpoints, inclusive; it then consumes one byte, and otherwise none |
| Properties.RangeNeedsBytes | lib/kpeg/code_generator.rb:46-68 | endpoints that are not single bytes have no meaning |
| Properties.ChoiceFailureRestores | lib/kpeg/code_generator.rb:73-81 | when every alternative fails, the position is back at the savepoint |
| Properties.ChoiceOrdered | lib/kpeg/code_generator.rb:73-81 | a successful Choice has a chain of states: alternatives 0..i-1 each failed, and each next one started with the position back at the savepoint; the outcome is that of alternative i, which succeeded |
| Properties.ChoiceFirstSuccess | lib/kpeg/code_generator.rb:73-81 | conversely, when alternatives 0..i-1 failed in such a chain and alternative i succeeds, the Choice's outcome is alternative i's, and later alternatives are never tried |
| Properties.ChoiceFailsInPlace | lib/kpeg/code_generator.rb:69-82 | a failed Choice consumes nothing |
| Properties.SequenceFailureRestores | lib/kpeg/code_generator.rb:163-177 | when an element fails, the position is back at the savepoint |
| Properties.SequenceShortCircuits | lib/kpeg/code_generator.rb:163-177 | a failed Sequence has a chain of states: elements 0..i-1 succeeded in turn, and element i failed; the outcome is element i's state with the position back at the savepoint, so later elements never ran |
| Properties.SequenceSuccessNeedsAll | lib/kpeg/code_generator.rb:163-177 | a successful Sequence has a chain of states in which every element ran from the state the previous one left and succeeded; the outcome is the last state |
| Properties.SequenceChain | lib/kpeg/code_generator.rb:163-177 | conversely, when elements 0..i-1 succeeded in turn, a failing element i makes the Sequence fail at the savepoint, and a successful last element makes it succeed with that element's state |
| Properties.SequenceFailsInPlace | lib/kpeg/code_generator.rb:159-178 | a failed Sequence consumes nothing |
| Properties.OptionalSucceeds | lib/kpeg/code_generator.rb:85-94 | (0,1) always succeeds; when the operand fails it consumes nothing, and `@result` is nil when values are saved |
| Properties.StarEndsOnFailure | lib/kpeg/code_generator.rb:100-106 | the greedy loop stops only on a failure of its operand |
| Properties.StarRuns | lib/kpeg/code_generator.rb:100-106 | the greedy loop is a chain of successful iterations, each run on the state the one before left after its push, ending with the first failing attempt, whose state is the loop's |
| Properties.StarAppends | lib/kpeg/code_generator.rb:96-106 | with values saved and an operand that keeps `_ary` to itself, the loop appends exactly one `@result` per successful iteration, in order, and nothing else |
| Properties.StarSucceeds | lib/kpeg/code_generator.rb:95-111 | (0,*) always succeeds, and with values saved `@result` is the collected array |
| Properties.StarCollects | lib/kpeg/code_generator.rb:95-111 | (0,*) with values saved: `@result` is the array of the results of the successful iterations, in order |
| Properties.PlusCollects | lib/kpeg/code_generator.rb:112-137 | (1,*) with values saved: `@result` is the first attempt's result followed by the results of the loop's successful iterations |
| Properties.PlusNeedsOne | lib/kpeg/code_generator.rb:112-137 | (1,*) succeeds iff its first attempt does; a failure consumes nothing; with values saved, success leaves `@result` as the array |
| Properties.CountedStops | lib/kpeg/code_generator.rb:141-150 | the counting loop ends on a failed attempt or when the count reaches the maximum |
| Properties.CountedBounded | lib/kpeg/code_generator.rb:141-150 | when the operand keeps `_count` to itself, the count never exceeds the maximum |
| Properties.CountedRepetition | lib/kpeg/code_generator.rb:138-156 | a bounded repetition succeeds iff `_count >= min` afterwards; it consumes nothing when it fails; it counts no further than the maximum |
| Properties.UnboundedNeedsMax | lib/kpeg/code_generator.rb:146 | with a minimum of 2 or more and no maximum, the count test has no value to compare with |
| Properties.AndLooksAhead | lib/kpeg/code_generator.rb:179-187 | `&e` succeeds iff `e` does, and never consumes input |
| Properties.NotInverts | lib/kpeg/code_generator.rb:188-197 | `!e` succeeds iff `e` fails, and never consumes input |
| Properties.ActionSucceeds | lib/kpeg/code_generator.rb:219-225 | an action always succeeds, consumes nothing, and its value becomes `@result` |
| Properties.TagBinds | lib/kpeg/code_generator.rb:212-218 | after a named tag, the tag variable holds the operand's `@result` |
| Properties.CollectCaptures | lib/kpeg/code_generator.rb:226-231 | after a successful capture, `text` is exactly the input between the start and end positions; after a failed one, `text` is unchanged (when the operand does not write it) |
| Assembly.StandaloneRegion | lib/kpeg/code_generator.rb:238-245 | a region exists iff both markers occur |
| Assembly.RegionShape | lib/kpeg/code_generator.rb:238-245 | when the end marker follows the start, the region begins with the whole start marker and ends with the end marker's `#` |
| Assembly.Header | lib/kpeg/code_generator.rb:249-269 | the header fails iff standalone and either runtime file lacks its region; when standalone it begins with the bare `class name` line, ahead of the spliced region; when not standalone it is the `require` line and the `class ... < KPeg::CompiledParser` line |
| Assembly.ForeignSetupWritten | lib/kpeg/code_generator.rb:275-287 | `setup_foreign_grammar` is written iff there are foreign grammars or the parser is standalone |
| Assembly.ForeignLinePlaced | lib/kpeg/code_generator.rb:282-286 | every foreign grammar gets its line, at its offset |
| Assembly.ForeignLinesInOrder | lib/kpeg/code_generator.rb:283-285 | foreign grammars are created in insertion order |
| Assembly.Routine | lib/kpeg/code_generator.rb:293-330 | a rule's routine exists iff the rule is defined and its operator is accepted |
| Assembly.Traverse | lib/kpeg/code_generator.rb:293 | the walk over the rule order succeeds iff every step does, and then gives each step's text in order |
| Assembly.Routines | lib/kpeg/code_generator.rb:293-330 | the `i`-th routine is the routine of the `i`-th rule in rule order; it fails iff one of them does |
| Assembly.TablePieces | lib/kpeg/code_generator.rb:332-338 | one `Rules` entry per rule, in rule order |
| Assembly.Assemble | lib/kpeg/code_generator.rb:247-342 | the output exists iff the header and every routine do |
| Assembly.AssembleSucceeds | lib/kpeg/code_generator.rb:247-342 | the output exists iff the standalone regions are present (when standalone) and every rule in rule order is defined with an accepted operator |
| Assembly.AssembleText | lib/kpeg/code_generator.rb:247-342 | the output is the header, setup and foreign setup, then the routines, then the table and `end` |
| Assembly.RoutinePlaced | lib/kpeg/code_generator.rb:293-330 | every rule in rule order has its routine in the output, at its offset |
| Assembly.RoutinesInRuleOrder | lib/kpeg/code_generator.rb:293 | an earlier rule's routine ends before a later one's starts |
| Assembly.RoutineRuns | lib/kpeg/code_generator.rb:318-328 | a routine runs its operator with savepoints from 0; it then records the failure under its own name iff `_tmp` is not set |
| Generator.CodeGenerator.Output | lib/kpeg/code_generator.rb:247-342 | with a cached output, returns it and changes nothing; otherwise returns `Assemble` of the current settings and caches it, or fails and caches nothing |
| Generator.CodeGenerator.WriteHeader | lib/kpeg/code_generator.rb:249-269 | writes the header `Header` describes, or fails when it does |
| Generator.CodeGenerator.WriteSetup | lib/kpeg/code_generator.rb:271-273 | appends every setup block in order |
| Generator.CodeGenerator.WriteForeignSetup | lib/kpeg/code_generator.rb:275-287 | appends `setup_foreign_grammar` as `ForeignSetup` describes |
| Generator.CodeGenerator.WriteRoutines | lib/kpeg/code_generator.rb:289-330 | appends the routines of every rule in rule order, each with the counter reset, and records each rule's rendering |
| Generator.CodeGenerator.WriteRoutine | lib/kpeg/code_generator.rb:294-329 | resets the counter, then appends the comment, the `def` line, the operator's code, `set_failed_rule` and `return _tmp` |
| Generator.CodeGenerator.WriteTable | lib/kpeg/code_generator.rb:332-338 | appends the `Rules` table, one escaped entry per rule in rule order |

## Left out

- Reading `compiled_parser.rb` and `position.rb` from disk: their contents are a `Library` parameter.
- The `puts` and `exit 1` on a missing region: each becomes an `Err`.
- The `raise "Unknown op"` branch: `Grammar.Op` has one constructor per handled class, so no other operator exists.
- `GrammarRenderer`: its `render_op` and `escape` are an opaque `Renderer` parameter.
- The debug output (the `debug` flag and its `puts` lines): no core behaviour depends on it.
- How regular expressions are written: the generator interpolates the `Regexp` object, whose `to_s` wraps the source in an option group such as `(?-mix:src)`, and a `kcode` letter follows the closing slash. The model writes `scan(/\Asrc/)` with the bare source text, and scanning is an oracle.
- `String#dump` escaping of special bytes in literals.
- Indentation and blank lines of the generated source.
- Backslash escapes in the `gsub!` replacement text.
- The runtime's behaviour is not modelled:
  - `apply` and its memoization;
  - `external_invoke`;
  - the `set_failed_rule` bookkeeping;
  - `get_byte`, `match_string`, `scan` and `get_text`.

  They are given simple abstract meanings, or are oracles in `Runtime.Ctx`.
- `make` and `parse`: they evaluate the output with Ruby's `module_eval` and run it.
- Generator.CodeGenerator.OutputOp: after an error, the savepoint counter is left unspecified. The source raises at that point, and no caller reads the counter afterwards.
- Runtime.Ctx.host: action code is taken to yield a value only. In the source it is arbitrary Ruby run inside the parser, and it could move `self.pos` or assign the routine's locals (`_ary`, `_count`, `_text_start`, `text`, tag variables). Properties.ActionSucceeds ("consumes nothing") and Properties.EvalKeeps for operands that contain actions rely on this.
- Semantics.Eval: a repetition with a minimum of 2 or more and no maximum is stuck only when its count test is reached. The generated file would not parse at all.
- Semantics.Eval: it takes a `fuel` bound, because generated loops and rule calls need not terminate. An outcome that runs out of fuel is reported as such, not as success or failure.
