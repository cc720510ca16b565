/** The parser runtime the generated routines call into, given the simple
    abstract meanings the generated code relies on. The runtime class
    itself (kpeg/compiled_parser.rb) is not part of this model: scanning
    with a regular expression, calls of other rules and the Ruby code of
    actions are oracles supplied in a `Ctx`. */
module Runtime {

  import opened Values

  /** Everything a generated routine reads and writes: the parser's cursor
      `self.pos`, `@result` and the record of failed rules (state of the
      parser object), followed by the routine's own locals `_tmp`, `_ary`,
      `_count`, `_text_start`, `text` and the tag variables. */
  datatype Regs = Regs(
    pos: nat,
    result: Value,
    failures: seq<(string, nat)>,
    tmp: Value,
    ary: seq<Value>,
    count: int,
    textStart: nat,
    text: Value,
    tags: map<string, Value>)

  /** The part of the state that action code, call arguments and called
      rules can observe. */
  datatype View = View(
    pos: nat,
    result: Value,
    failures: seq<(string, nat)>,
    text: Value,
    tags: map<string, Value>)

  function ViewOf(r: Regs): View {
    View(r.pos, r.result, r.failures, r.text, r.tags)
  }

  /** What a call of another rule leaves behind: its return value, the new
      cursor, `@result` and the failure record. */
  datatype Call = Call(value: Value, pos: nat, result: Value, failures: seq<(string, nat)>)

  /** The input being parsed and the oracles for everything the generator
      passes through uninterpreted:
      - `scan(pattern, rest)`: length of the anchored match of the regular
        expression at the start of the rest of the input, if any;
      - `apply(method, view)`: the memoized call `apply(:method)`;
      - `invoke(method, arguments, view)`: a direct call of the routine;
      - `foreign(alias, method, arguments, view)`: a call through the
        foreign grammar held under `alias`;
      - `host(code, view)`: the value of a block of action code. */
  datatype Ctx = Ctx(
    input: seq<byte>,
    scan: (string, seq<byte>) -> Option<nat>,
    apply: (string, View) -> Call,
    invoke: (string, Option<string>, View) -> Call,
    foreign: (string, string, Option<string>, View) -> Call,
    host: (string, View) -> Value)

  /** The input from the cursor on. */
  function Rest(c: Ctx, pos: nat): (s: seq<byte>)
    ensures pos <= |c.input| ==> c.input == c.input[..pos] + s
    ensures pos > |c.input| ==> s == []
  {
    if pos <= |c.input| then c.input[pos..] else []
  }

  /** `get_byte`: consumes one byte and returns it as an Integer, or
      returns nil at the end of the input. */
  function GetByte(c: Ctx, r: Regs): (r': Regs)
    ensures Truthy(r'.tmp) <==> r.pos < |c.input|
    ensures Truthy(r'.tmp) ==> r'.tmp == Int(c.input[r.pos] as int) && r' == r.(tmp := r'.tmp, pos := r.pos + 1)
    ensures !Truthy(r'.tmp) ==> r' == r.(tmp := Nil)
  {
    if r.pos < |c.input| then r.(tmp := Int(c.input[r.pos] as int), pos := r.pos + 1)
    else r.(tmp := Nil)
  }

  /** `match_string(lit)`: succeeds, returning the literal and moving past
      it, exactly when the rest of the input starts with it; otherwise the
      cursor stays. */
  function MatchString(c: Ctx, lit: seq<byte>, r: Regs): (r': Regs)
    ensures Truthy(r'.tmp) <==> r.pos <= |c.input| && lit <= Rest(c, r.pos)
    ensures Truthy(r'.tmp) ==> r' == r.(tmp := Str(lit), pos := r.pos + |lit|)
    ensures !Truthy(r'.tmp) ==> r' == r.(tmp := Nil)
  {
    if r.pos + |lit| <= |c.input| && c.input[r.pos..r.pos + |lit|] == lit then
      assert lit == Rest(c, r.pos)[..|lit|];
      r.(tmp := Str(lit), pos := r.pos + |lit|)
    else
      r.(tmp := Nil)
  }

  /** `scan(/\A.../)`: moves past an anchored match of the pattern. */
  function Scan(c: Ctx, pattern: string, r: Regs): (r': Regs)
    ensures Truthy(r'.tmp) ==> r.pos <= r'.pos <= r.pos + |Rest(c, r.pos)|
    ensures !Truthy(r'.tmp) ==> r' == r.(tmp := Nil)
  {
    var rest := Rest(c, r.pos);
    match c.scan(pattern, rest)
    case Some(n) => if n <= |rest| then r.(tmp := True, pos := r.pos + n) else r.(tmp := Nil)
    case None => r.(tmp := Nil)
  }

  /** Takes over what a called rule left behind. */
  function Called(r: Regs, k: Call): Regs {
    r.(tmp := k.value, pos := k.pos, result := k.result, failures := k.failures)
  }

  /** `get_text(start)`: the input from `start` up to the cursor. */
  function GetText(c: Ctx, start: nat, pos: nat): (s: seq<byte>)
    ensures start <= pos <= |c.input| ==> c.input[..pos] == c.input[..start] + s
  {
    var hi := if pos <= |c.input| then pos else |c.input|;
    var lo := if start <= hi then start else hi;
    c.input[lo..hi]
  }

  /** `set_failed_rule :routine`: the runtime is told that the rule failed
      at the current position. */
  function SetFailedRule(r: Regs, routine: string): (r': Regs)
    ensures r' == r.(failures := r'.failures) && |r'.failures| == |r.failures| + 1
    ensures r'.failures[..|r.failures|] == r.failures && r'.failures[|r.failures|] == (routine, r.pos)
  {
    r.(failures := r.failures + [(routine, r.pos)])
  }
}
