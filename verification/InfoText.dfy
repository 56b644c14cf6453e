/** The info-protocol parser of lib/info.js: text split by a list of separators into nested
    lists and key-value objects. */
module InfoText {
  import opened Prelude

  datatype Result<+T> = Done(value: T) | TypeErr

  /** A number is represented by its canonical text: `parseValue` turns exactly those texts into
      numbers that are the canonical text of some number. Which ones they are is a parameter. */
  datatype Value =
    | Undefined
    | Text(s: string)
    | Num(text: string)
    | List(items: seq<Value>)
    | Obj(fields: map<string, Value>)

  type Numeric = string -> bool

  /** One character, two characters, or one of the three functions of the separator table. */
  datatype Sep = One(c: char) | Two(a: char, b: char) | SmartParse | Chop | SplitBins

  // Splitting and joining.

  function Split(s: string, c: char): (r: seq<string>)
    ensures |r| > 0
  {
    if s == [] then [[]]
    else
      var r := Split(s[1..], c);
      if s[0] == c then [[]] + r else [[s[0]] + r[0]] + r[1..]
  }

  function Join(ps: seq<string>, c: char): string
    requires |ps| > 0
  {
    if |ps| == 1 then ps[0] else ps[0] + [c] + Join(ps[1..], c)
  }

  predicate Free(s: string, c: char) { c !in s }

  predicate AllFree(ps: seq<string>, c: char) { forall i | 0 <= i < |ps| :: Free(ps[i], c) }

  /** Text with no separator in it is one piece. */
  lemma {:induction false} SplitFree(p: string, c: char)
    requires Free(p, c)
    ensures Split(p, c) == [p]
  {
    if p != [] {
      SplitFree(p[1..], c);
      assert [p[0]] + p[1..] == p;
    }
  }

  lemma {:induction false} SplitFirst(p: string, rest: string, c: char)
    requires Free(p, c)
    ensures Split(p + [c] + rest, c) == [p] + Split(rest, c)
  {
    var s := p + [c] + rest;
    if p == [] {
      assert s[1..] == rest;
    } else {
      SplitFirst(p[1..], rest, c);
      assert s[1..] == p[1..] + [c] + rest;
      var r := Split(s[1..], c);
      assert r == [p[1..]] + Split(rest, c);
      assert [s[0]] + p[1..] == p && r[1..] == Split(rest, c);
    }
  }

  lemma {:induction false} SplitJoin(ps: seq<string>, c: char)
    requires |ps| > 0 && AllFree(ps, c)
    ensures Split(Join(ps, c), c) == ps
  {
    if |ps| == 1 {
      SplitFree(ps[0], c);
    } else {
      SplitFirst(ps[0], Join(ps[1..], c), c);
      SplitJoin(ps[1..], c);
      assert ps == [ps[0]] + ps[1..];
    }
  }

  /** And back: splitting loses nothing and leaves no separator. */
  lemma {:induction false} JoinSplit(s: string, c: char)
    ensures Join(Split(s, c), c) == s && AllFree(Split(s, c), c)
  {
    if s != [] {
      JoinSplit(s[1..], c);
      var r := Split(s[1..], c);
      if s[0] == c {
        assert ([[]] + r)[1..] == r;
        assert [] + [c] + s[1..] == s;
      } else {
        var r' := Split(s, c);
        assert r'[1..] == r[1..] && r'[0] == [s[0]] + r[0];
        JoinLonger(s[0], r, r', c);
        assert [s[0]] + s[1..] == s;
      }
    }
  }

  lemma {:induction false} JoinLonger(x: char, r: seq<string>, r': seq<string>, c: char)
    requires |r| > 0 && |r'| == |r| && r'[1..] == r[1..] && r'[0] == [x] + r[0]
    ensures Join(r', c) == [x] + Join(r, c)
  {
    if |r| > 1 { assert r'[0] + [c] + Join(r[1..], c) == [x] + (r[0] + [c] + Join(r[1..], c)); }
  }

  // The parser.

  function ParseValue(num: Numeric, v: Option<string>): Value {
    if v.None? then Undefined else if num(v.value) then Num(v.value) else Text(v.value)
  }

  /** One `key sep value` item: what follows a second separator is dropped. */
  function ParsePair(num: Numeric, kv: string, sep: char): (string, Value) {
    var parts := Split(kv, sep);
    (parts[0], ParseValue(num, if |parts| > 1 then Some(parts[1]) else None))
  }

  /** Assigning to this key of a fresh object makes no property of its own: the assignment reaches
      the prototype, which does not change for text, numbers and undefined. */
  const PROTO := "__proto__"

  /** Later items overwrite earlier ones; empty items are skipped. */
  function Fields(num: Numeric, items: seq<string>, sep: char): map<string, Value> {
    if items == [] then map[] else
      var before := Fields(num, items[..|items| - 1], sep);
      var kv := items[|items| - 1];
      var (k, v) := ParsePair(num, kv, sep);
      if kv == [] || k == PROTO then before else before[k := v]
  }

  function KeyValues(num: Numeric, str: string, sep1: char, sep2: char): map<string, Value> {
    Fields(num, Split(str, sep1), sep2)
  }

  lemma {:induction false} FieldsNext(num: Numeric, items: seq<string>, i: nat, sep: char)
    requires i < |items|
    ensures var before, (k, v) := Fields(num, items[..i], sep), ParsePair(num, items[i], sep);
      Fields(num, items[..i + 1], sep)
      == if items[i] == [] || k == PROTO then before else before[k := v]
  {
    assert items[..i + 1][..i] == items[..i];
  }

  /** `parseKeyValue` with its loop. */
  method ParseKeyValue(num: Numeric, str: string, sep1: char, sep2: char) returns (result: map<string, Value>)
    ensures result == KeyValues(num, str, sep1, sep2)
  {
    result := map[];
    var items := Split(str, sep1);
    var i := 0;
    while i < |items|
      invariant 0 <= i <= |items|
      invariant result == Fields(num, items[..i], sep2)
    {
      FieldsNext(num, items, i, sep2);
      if items[i] != [] {
        var parts := Split(items[i], sep2);
        if parts[0] != PROTO {
          result := result[parts[0] := ParseValue(num, if |parts| > 1 then Some(parts[1]) else None)];
        }
      }
      i := i + 1;
    }
    assert items[..i] == items;
  }

  function Texts(ps: seq<string>): seq<Value> { seq(|ps|, i requires 0 <= i < |ps| => Text(ps[i])) }

  function DropEmptyLast(ps: seq<string>): seq<string>
    requires |ps| > 0
  {
    if ps[|ps| - 1] == [] then ps[..|ps| - 1] else ps
  }

  /** `splitBins`: items with a value are statistics, the others are names. */
  function BinStats(num: Numeric, items: seq<string>): (map<string, Value>, seq<string>) {
    if items == [] then (map[], []) else
      var (stats, names) := BinStats(num, items[..|items| - 1]);
      var parts := Split(items[|items| - 1], '=');
      if |parts| >= 2 then
        (if parts[0] == PROTO then stats else stats[parts[0] := ParseValue(num, Some(parts[1]))], names)
      else (stats, names + [parts[0]])
  }

  /** `splitString` on a value that should be a string; other values have no such method, except
      that `smartParse` hands them back. */
  function SplitValue(num: Numeric, v: Value, sep: Sep): Result<Value> {
    if !v.Text? then (if sep.SmartParse? then Done(v) else TypeErr) else
    match sep
    case One(c) => Done(List(Texts(DropEmptyLast(Split(v.s, c)))))
    case Two(a, b) => Done(Obj(KeyValues(num, v.s, a, b)))
    case SmartParse => Done(Smart(num, v.s))
    case Chop => Done(Text(if v.s == [] then [] else v.s[..|v.s| - 1]))
    case SplitBins => Done(BinsValue(BinStats(num, Split(v.s, ','))))
  }

  function Smart(num: Numeric, s: string): Value {
    if ';' !in s then Text(s)
    else if '=' in s then Obj(KeyValues(num, s, ';', '='))
    else List(Texts(Split(s, ';')))
  }

  function BinsValue(bins: (map<string, Value>, seq<string>)): Value {
    Obj(map["stats" := Obj(bins.0), "names" := List(Texts(bins.1))])
  }

  function SplitItems(num: Numeric, vs: seq<Value>, sep: Sep): Result<seq<Value>> {
    if vs == [] then Done([]) else
    match (SplitValue(num, vs[0], sep), SplitItems(num, vs[1..], sep))
    case (Done(v), Done(rest)) => Done([v] + rest)
    case _ => TypeErr
  }

  function SplitFields(num: Numeric, m: map<string, Value>, sep: Sep): Result<map<string, Value>> {
    if forall k | k in m :: SplitValue(num, m[k], sep).Done?
    then Done(map k | k in m :: SplitValue(num, m[k], sep).value)
    else TypeErr
  }

  /** `deepSplitString`: each separator is used on the level that the one before has made. It
      ends because the list of separators gets shorter. */
  function DeepSplit(num: Numeric, input: Value, seps: seq<Sep>): Result<Value>
    decreases |seps|
  {
    if input.Undefined? || seps == [] then Done(input) else
      var output :=
        match input
        case Text(_) => SplitValue(num, input, seps[0])
        case List(items) =>
          (match SplitItems(num, items, seps[0]) case Done(vs) => Done(List(vs)) case TypeErr => TypeErr)
        case Obj(fields) =>
          (match SplitFields(num, fields, seps[0]) case Done(m) => Done(Obj(m)) case TypeErr => TypeErr)
        case _ => Done(input);
      if output.TypeErr? then TypeErr else DeepSplit(num, output.value, seps[1..])
  }

  /** The fields of an object, each split by the separators of its key. */
  function SplitByKey(num: Numeric, hash: map<string, Value>, seps: string -> seq<Sep>): Result<map<string, Value>> {
    if forall k | k in hash :: DeepSplit(num, hash[k], seps(k)).Done?
    then Done(map k | k in hash :: DeepSplit(num, hash[k], seps(k)).value)
    else TypeErr
  }

  /** `parse`: lines of key, tab, value; each value is split by the separators of its key. */
  function Parse(num: Numeric, info: string, seps: string -> seq<Sep>): Result<map<string, Value>> {
    if info == [] then Done(map[]) else SplitByKey(num, KeyValues(num, info, '\n', '\t'), seps)
  }

  /** `parse` with its loop over the keys. */
  method ParseInfo(num: Numeric, info: string, seps: string -> seq<Sep>) returns (r: Result<map<string, Value>>)
    ensures r == Parse(num, info, seps)
  {
    if info == [] { return Done(map[]); }
    var hash := ParseKeyValue(num, info, '\n', '\t');
    r := SplitEach(num, hash, seps);
  }

  method SplitEach(num: Numeric, hash: map<string, Value>, seps: string -> seq<Sep>)
    returns (r: Result<map<string, Value>>)
    ensures r == SplitByKey(num, hash, seps)
  {
    var left, result := hash.Keys, map[];
    while left != {}
      invariant left <= hash.Keys && result.Keys == hash.Keys - left
      invariant forall k | k in result :: DeepSplit(num, hash[k], seps(k)) == Done(result[k])
    {
      var k :| k in left;
      var v := DeepSplit(num, hash[k], seps(k));
      if v.TypeErr? { return TypeErr; }
      result := result[k := v.value];
      left := left - {k};
    }
    assert result == map k | k in hash :: DeepSplit(num, hash[k], seps(k)).value;
    return Done(result);
  }
}
