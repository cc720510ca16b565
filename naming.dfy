/** Identifiers the generator invents: routine names for grammar rules
    (lib/kpeg/code_generator.rb:17-20) and savepoint variables
    (lib/kpeg/code_generator.rb:22-31). */
module Naming {

  import opened Values
  import opened Strings

  /** What every `-` of a rule name becomes. */
  const HyphenMarker: string := "_hyphen_"

  /** `method_name`: each `-` becomes `_hyphen_` and the whole is prefixed
      with `_`, giving a legal Ruby method name. */
  function MethodName(name: string): (m: string)
    ensures |m| >= 1 && m[0] == '_'
    ensures '-' !in m
  {
    ReplaceAllRemoves(name, '-', HyphenMarker);
    "_" + ReplaceAll(name, "-", HyphenMarker)
  }

  /** Turns each `_hyphen_` back into `-`. */
  function Unhyphen(s: string): string
    decreases |s|
  {
    if |s| >= |HyphenMarker| && s[..|HyphenMarker|] == HyphenMarker then "-" + Unhyphen(s[|HyphenMarker|..])
    else if s == [] then []
    else [s[0]] + Unhyphen(s[1..])
  }

  /** The inverse of MethodName: the rule name a routine name stands for. */
  function RuleNameOf(m: string): Option<string> {
    if |m| >= 1 && m[0] == '_' then Some(Unhyphen(m[1..])) else None
  }

  lemma {:induction false} UnhyphenInverts(name: string)
    requires '_' !in name
    ensures Unhyphen(ReplaceAll(name, "-", HyphenMarker)) == name
    decreases |name|
  {
    if name != [] {
      var rest := ReplaceAll(name[1..], "-", HyphenMarker);
      UnhyphenInverts(name[1..]);
      if name[0] == '-' {
        assert name[..1] == "-";
        assert ReplaceAll(name, "-", HyphenMarker) == HyphenMarker + rest;
        assert (HyphenMarker + rest)[|HyphenMarker|..] == rest;
      } else {
        assert name[..1] != "-";
        assert ReplaceAll(name, "-", HyphenMarker) == [name[0]] + rest;
        assert ([name[0]] + rest)[1..] == rest;
      }
    }
  }

  /** For rule names without underscores the mangling can be undone, so
      distinct such rules get distinct routines. */
  lemma MethodNameRoundTrip(name: string)
    requires '_' !in name
    ensures RuleNameOf(MethodName(name)) == Some(name)
  {
    UnhyphenInverts(name);
    var m := MethodName(name);
    assert m[1..] == ReplaceAll(name, "-", HyphenMarker);
  }

  lemma MethodNameInjective(a: string, b: string)
    requires '_' !in a && '_' !in b
    requires MethodName(a) == MethodName(b)
    ensures a == b
  {
    MethodNameRoundTrip(a);
    MethodNameRoundTrip(b);
  }

  /** With underscores allowed the mangling is not reversible: a rule
      `u-v` and a rule `u_hyphen_v` get the same routine name. */
  lemma MethodNameCollision(u: string, v: string)
    requires '-' !in u && '-' !in v
    ensures u + "-" + v != u + HyphenMarker + v
    ensures MethodName(u + "-" + v) == MethodName(u + HyphenMarker + v)
  {
    assert |u + "-" + v| != |u + HyphenMarker + v|;
    HyphenReplaced(u, v);
    MarkerKept(u, v);
  }

  lemma HyphenReplaced(u: string, v: string)
    requires '-' !in u && '-' !in v
    ensures ReplaceAll(u + "-" + v, "-", HyphenMarker) == u + HyphenMarker + v
  {
    ReplaceAllConcat(u, "-" + v, '-', HyphenMarker);
    ReplaceAllConcat("-", v, '-', HyphenMarker);
    ReplaceAllAbsent(u, '-', HyphenMarker);
    ReplaceAllAbsent(v, '-', HyphenMarker);
    assert ReplaceAll("-", "-", HyphenMarker) == HyphenMarker;
    assert u + "-" + v == u + ("-" + v);
  }

  lemma MarkerKept(u: string, v: string)
    requires '-' !in u && '-' !in v
    ensures ReplaceAll(u + HyphenMarker + v, "-", HyphenMarker) == u + HyphenMarker + v
  {
    assert '-' !in HyphenMarker;
    ReplaceAllAbsent(u + HyphenMarker + v, '-', HyphenMarker);
  }

  const SavePrefix: string := "_save"

  /** The name `save` hands out when its counter is `k`: `_save`, then
      `_save1`, `_save2`, ... */
  function SaveName(k: nat): (s: string)
    ensures |s| >= |SavePrefix| && s[..|SavePrefix|] == SavePrefix
    ensures k == 0 <==> s == SavePrefix
  {
    if k == 0 then SavePrefix else SavePrefix + Decimal(k)
  }

  /** Reads the counter value back from a savepoint name. */
  function SaveIndex(s: string): Option<nat> {
    if |s| >= |SavePrefix| && s[..|SavePrefix|] == SavePrefix && AllDigits(s[|SavePrefix|..])
    then Some(ParseDecimal(s[|SavePrefix|..]))
    else None
  }

  lemma SaveNameRoundTrip(k: nat)
    ensures SaveIndex(SaveName(k)) == Some(k)
  {
    var s := SaveName(k);
    if k == 0 {
      assert s[|SavePrefix|..] == "";
    } else {
      assert s[|SavePrefix|..] == Decimal(k);
      DecimalRoundTrip(k);
    }
  }

  /** Distinct counter values give distinct savepoint variables, so the
      savepoints of one routine never alias. */
  lemma SaveNameInjective(i: nat, j: nat)
    requires SaveName(i) == SaveName(j)
    ensures i == j
  {
    SaveNameRoundTrip(i);
    SaveNameRoundTrip(j);
  }
}
