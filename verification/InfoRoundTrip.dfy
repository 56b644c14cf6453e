/** Printing a value with the separators of its key, and parsing the text again, restores it. */
module InfoRoundTrip {
  import opened Prelude
  import opened InfoText

  // Lists of words.

  function Words(ps: seq<string>, c: char, trail: bool): string {
    (if ps == [] then [] else Join(ps, c)) + (if trail then [c] else [])
  }

  lemma {:induction false} JoinLast(ps: seq<string>, c: char)
    requires |ps| > 0
    ensures Join(ps + [[]], c) == Join(ps, c) + [c]
  {
    var more := ps + [[]];
    if |ps| == 1 {
      assert more[1..] == [[]];
      assert ps[0] + [c] + [] == ps[0] + [c];
    } else {
      JoinLast(ps[1..], c);
      assert more[1..] == ps[1..] + [[]];
      assert ps[0] + [c] + (Join(ps[1..], c) + [c]) == ps[0] + [c] + Join(ps[1..], c) + [c];
    }
  }

  lemma {:induction false} SplitWords(ps: seq<string>, c: char, trail: bool)
    requires AllFree(ps, c)
    ensures Split(Words(ps, c, trail), c)
         == (if ps == [] then [[]] else ps) + (if trail then [[]] else [])
  {
    if ps == [] {
      if trail {
        assert Words(ps, c, trail) == [] + [c] + [];
        SplitFirst([], [], c);
      } else {
        assert Words(ps, c, trail) == [];
      }
    } else if trail {
      JoinLast(ps, c);
      SplitJoin(ps + [[]], c);
    } else {
      assert Join(ps, c) + [] == Join(ps, c) && ps + [] == ps;
      SplitJoin(ps, c);
    }
  }

  /** A list of words comes back exactly when, printed without a trailing separator, its last
      word is not empty, or, printed with one, the list is not empty. */
  lemma {:induction false} ListExact(num: Numeric, ps: seq<string>, c: char, trail: bool)
    requires AllFree(ps, c)
    ensures SplitValue(num, Text(Words(ps, c, trail)), One(c)) == Done(List(Texts(ps)))
            <==> if trail then ps != [] else ps == [] || ps[|ps| - 1] != []
  {
    SplitWords(ps, c, trail);
    var got := DropEmptyLast(Split(Words(ps, c, trail), c));
    assert got == ps <==> Texts(got) == Texts(ps) by {
      if Texts(got) == Texts(ps) {
        assert forall i | 0 <= i < |got| :: Texts(got)[i] == Text(got[i]) && Texts(ps)[i] == Text(ps[i]);
        assert |got| == |ps|;
      }
    }
    if trail && ps != [] { assert (ps + [[]])[..|ps|] == ps; }
  }

  // Key-value objects.

  type Pairs = seq<(string, string)>

  function PairText(p: (string, string), b: char): string { p.0 + [b] + p.1 }

  function PairTexts(ps: Pairs, b: char): seq<string> { seq(|ps|, i requires 0 <= i < |ps| => PairText(ps[i], b)) }

  predicate PairsFree(ps: Pairs, a: char, b: char) {
    forall i | 0 <= i < |ps| :: Free(ps[i].0, a) && Free(ps[i].1, a) && Free(ps[i].0, b) && Free(ps[i].1, b)
  }

  function PairMap(num: Numeric, ps: Pairs): map<string, Value> {
    if ps == [] then map[]
    else PairMap(num, ps[..|ps| - 1])[ps[|ps| - 1].0 := ParseValue(num, Some(ps[|ps| - 1].1))]
  }

  lemma {:induction false} PairBack(num: Numeric, p: (string, string), b: char)
    requires Free(p.0, b) && Free(p.1, b)
    ensures ParsePair(num, PairText(p, b), b) == (p.0, ParseValue(num, Some(p.1)))
  {
    SplitFirst(p.0, p.1, b);
    SplitFree(p.1, b);
  }

  /** Keys that can be properties of an object's own. */
  predicate OwnKeys(ps: Pairs) { forall i | 0 <= i < |ps| :: ps[i].0 != "__proto__" }

  function Own(ps: Pairs): Pairs {
    if ps == [] then [] else Own(ps[..|ps| - 1]) + if ps[|ps| - 1].0 == PROTO then [] else [ps[|ps| - 1]]
  }

  lemma {:induction false} OwnAll(ps: Pairs)
    requires OwnKeys(ps)
    ensures Own(ps) == ps
  {
    if ps != [] {
      OwnAll(ps[..|ps| - 1]);
      assert ps[..|ps| - 1] + [ps[|ps| - 1]] == ps;
    }
  }

  lemma {:induction false} PairMapKeys(num: Numeric, ps: Pairs)
    ensures forall k :: k in PairMap(num, ps) <==> exists i :: 0 <= i < |ps| && ps[i].0 == k
  {
    if ps != [] {
      var n := |ps| - 1;
      PairMapKeys(num, ps[..n]);
      assert forall i | 0 <= i < n :: ps[..n][i] == ps[i];
    }
  }

  lemma {:induction false} OwnHasNone(ps: Pairs)
    ensures OwnKeys(Own(ps))
  {
    if ps != [] { OwnHasNone(ps[..|ps| - 1]); }
  }

  lemma {:induction false} PairMapSnoc(num: Numeric, ps: Pairs, p: (string, string))
    ensures PairMap(num, ps + [p]) == PairMap(num, ps)[p.0 := ParseValue(num, Some(p.1))]
  {
    assert (ps + [p])[..|ps|] == ps;
  }

  lemma {:induction false} FieldsBack(num: Numeric, ps: Pairs, a: char, b: char)
    requires PairsFree(ps, a, b)
    ensures Fields(num, PairTexts(ps, b), b) == PairMap(num, Own(ps))
  {
    if ps != [] {
      var n := |ps| - 1;
      FieldsBack(num, ps[..n], a, b);
      assert PairTexts(ps, b)[..n] == PairTexts(ps[..n], b);
      PairBack(num, ps[n], b);
      if ps[n].0 == PROTO {
        assert Own(ps[..n]) + [] == Own(ps[..n]);
      } else {
        PairMapSnoc(num, Own(ps[..n]), ps[n]);
      }
    }
  }

  lemma {:induction false} FieldsSkipEmpty(num: Numeric, items: seq<string>, b: char)
    ensures Fields(num, items + [[]], b) == Fields(num, items, b)
    ensures Fields(num, [[]], b) == map[]
  {
    assert (items + [[]])[..|items|] == items;
  }

  lemma {:induction false} PairTextsFree(ps: Pairs, a: char, b: char)
    requires PairsFree(ps, a, b) && a != b
    ensures AllFree(PairTexts(ps, b), a)
  {
  }

  /** What comes back of an object: all pairs but those with the key that cannot be its own. */
  lemma {:induction false} OwnBack(num: Numeric, ps: Pairs, a: char, b: char, trail: bool)
    requires PairsFree(ps, a, b) && a != b
    ensures KeyValues(num, Words(PairTexts(ps, b), a, trail), a, b) == PairMap(num, Own(ps))
  {
    var items := PairTexts(ps, b);
    PairTextsFree(ps, a, b);
    SplitWords(items, a, trail);
    FieldsBack(num, ps, a, b);
    FieldsSkipEmpty(num, items, b);
    if ps == [] {
      assert items == [];
      FieldsSkipEmpty(num, [[]], b);
    }
    assert items + [] == items;
  }

  /** So it comes back if and only if there is no such pair. */
  lemma {:induction false} ObjectExact(num: Numeric, ps: Pairs, a: char, b: char, trail: bool)
    requires PairsFree(ps, a, b) && a != b
    ensures KeyValues(num, Words(PairTexts(ps, b), a, trail), a, b) == PairMap(num, ps) <==> OwnKeys(ps)
  {
    OwnBack(num, ps, a, b, trail);
    if OwnKeys(ps) {
      OwnAll(ps);
    } else {
      var i :| 0 <= i < |ps| && ps[i].0 == PROTO;
      PairMapKeys(num, ps);
      PairMapKeys(num, Own(ps));
      OwnHasNone(ps);
      assert PROTO in PairMap(num, ps);
    }
  }

  /** An object comes back, with or without a trailing separator, canonical numbers becoming
      numbers and other text being kept; of equal keys the last one counts. */
  lemma {:induction false} ObjectBack(num: Numeric, ps: Pairs, a: char, b: char, trail: bool)
    requires PairsFree(ps, a, b) && a != b && OwnKeys(ps)
    ensures KeyValues(num, Words(PairTexts(ps, b), a, trail), a, b) == PairMap(num, ps)
    ensures SplitValue(num, Text(Words(PairTexts(ps, b), a, trail)), Two(a, b)) == Done(Obj(PairMap(num, ps)))
  {
    ObjectExact(num, ps, a, b, trail);
  }

  /** With different keys, every pair can be looked up and nothing else. */
  lemma {:induction false} PairLookup(num: Numeric, ps: Pairs)
    requires forall i, j | 0 <= i < j < |ps| :: ps[i].0 != ps[j].0
    ensures forall i | 0 <= i < |ps| ::
      ps[i].0 in PairMap(num, ps) && PairMap(num, ps)[ps[i].0] == ParseValue(num, Some(ps[i].1))
    ensures forall k | k in PairMap(num, ps) :: exists i | 0 <= i < |ps| :: ps[i].0 == k
  {
    if ps != [] {
      var n := |ps| - 1;
      PairLookup(num, ps[..n]);
      assert forall i | 0 <= i < n :: ps[..n][i] == ps[i];
    }
  }

  // Bins: `stats` items with a value, then names without.

  lemma {:induction false} BinsBack(num: Numeric, stats: Pairs, names: seq<string>)
    requires PairsFree(stats, ',', '=') && AllFree(names, '=') && OwnKeys(stats)
    ensures BinStats(num, PairTexts(stats, '=') + names) == (PairMap(num, stats), names)
    decreases |stats| + |names|
  {
    var items := PairTexts(stats, '=') + names;
    if names != [] {
      var n := |names| - 1;
      BinsBack(num, stats, names[..n]);
      assert items[..|items| - 1] == PairTexts(stats, '=') + names[..n];
      SplitFree(names[n], '=');
      assert names[..n] + [names[n]] == names;
    } else if stats != [] {
      var n := |stats| - 1;
      BinsBack(num, stats[..n], names);
      assert items[..|items| - 1] == PairTexts(stats[..n], '=') + names;
      SplitFirst(stats[n].0, stats[n].1, '=');
      SplitFree(stats[n].1, '=');
    }
  }

  /** An item without separator has a key and no value; what follows a second separator is dropped;
      an empty key and an empty value are a key and a value. */
  lemma {:induction false} PairExact(num: Numeric, k: string, v: string, rest: string, b: char)
    requires Free(k, b) && Free(v, b)
    ensures ParsePair(num, k, b) == (k, Undefined)
    ensures ParsePair(num, PairText((k, v), b), b) == (k, if num(v) then Num(v) else Text(v))
    ensures ParsePair(num, PairText((k, v), b) + [b] + rest, b) == (k, if num(v) then Num(v) else Text(v))
  {
    SplitFree(k, b);
    PairBack(num, (k, v), b);
    assert PairText((k, v), b) + [b] + rest == k + [b] + (v + [b] + rest);
    SplitFirst(k, v + [b] + rest, b);
    SplitFirst(v, rest, b);
  }

  /** Of equal keys the last one counts. */
  lemma {:induction false} LastCounts(num: Numeric, ps: Pairs, i: nat)
    requires i < |ps| && forall j | i < j < |ps| :: ps[j].0 != ps[i].0
    ensures ps[i].0 in PairMap(num, ps)
    ensures PairMap(num, ps)[ps[i].0] == if num(ps[i].1) then Num(ps[i].1) else Text(ps[i].1)
  {
    var n := |ps| - 1;
    if i < n {
      assert ps[..n][i] == ps[i];
      LastCounts(num, ps[..n], i);
    }
  }

  // One level of structure.

  datatype Shape = WordList(words: seq<string>) | Record(pairs: Pairs)

  function ShapeText(x: Shape, sep: Sep, trail: bool): string {
    match x
    case WordList(words) => if sep.One? then Words(words, sep.c, trail) else []
    case Record(pairs) => if sep.Two? then Words(PairTexts(pairs, sep.b), sep.a, trail) else []
  }

  function ShapeValue(num: Numeric, x: Shape): Value {
    match x
    case WordList(words) => List(Texts(words))
    case Record(pairs) => Obj(PairMap(num, pairs))
  }

  /** The value is shaped by the separator, and its pieces contain no separator. */
  predicate Fits(x: Shape, sep: Sep, trail: bool) {
    match x
    case WordList(words) =>
      sep.One? && AllFree(words, sep.c) && (if trail then words != [] else words == [] || words[|words| - 1] != [])
    case Record(pairs) => sep.Two? && sep.a != sep.b && PairsFree(pairs, sep.a, sep.b) && OwnKeys(pairs)
  }

  lemma {:induction false} ShapeBack(num: Numeric, x: Shape, sep: Sep, trail: bool)
    requires Fits(x, sep, trail)
    ensures SplitValue(num, Text(ShapeText(x, sep, trail)), sep) == Done(ShapeValue(num, x))
  {
    match x
    case WordList(words) => ListExact(num, words, sep.c, trail);
    case Record(pairs) => ObjectBack(num, pairs, sep.a, sep.b, trail);
  }

  // Two levels: a list, or an object, of shapes.

  function ShapeTexts(xs: seq<Shape>, sep: Sep): seq<string> {
    seq(|xs|, i requires 0 <= i < |xs| => ShapeText(xs[i], sep, false))
  }

  function ShapeValues(num: Numeric, xs: seq<Shape>): seq<Value> {
    seq(|xs|, i requires 0 <= i < |xs| => ShapeValue(num, xs[i]))
  }

  lemma {:induction false} ItemsBack(num: Numeric, xs: seq<Shape>, sep: Sep)
    requires forall i | 0 <= i < |xs| :: Fits(xs[i], sep, false)
    ensures SplitItems(num, Texts(ShapeTexts(xs, sep)), sep) == Done(ShapeValues(num, xs))
  {
    if xs == [] {
      assert Texts(ShapeTexts(xs, sep)) == [] && ShapeValues(num, xs) == [];
    } else {
      ShapeBack(num, xs[0], sep, false);
      ItemsBack(num, xs[1..], sep);
      ShapesCons(num, xs, sep);
      ItemsCons(num, Text(ShapeText(xs[0], sep, false)), Texts(ShapeTexts(xs[1..], sep)), sep);
    }
  }

  lemma {:induction false} ShapesCons(num: Numeric, xs: seq<Shape>, sep: Sep)
    requires xs != []
    ensures Texts(ShapeTexts(xs, sep)) == [Text(ShapeText(xs[0], sep, false))] + Texts(ShapeTexts(xs[1..], sep))
    ensures ShapeValues(num, xs) == [ShapeValue(num, xs[0])] + ShapeValues(num, xs[1..])
  {
  }

  lemma {:induction false} ItemsCons(num: Numeric, v: Value, rest: seq<Value>, sep: Sep)
    requires SplitValue(num, v, sep).Done? && SplitItems(num, rest, sep).Done?
    ensures SplitItems(num, [v] + rest, sep)
         == Done([SplitValue(num, v, sep).value] + SplitItems(num, rest, sep).value)
  {
    assert ([v] + rest)[1..] == rest;
  }

  /** A list of records or of lists, as for `sindex`, `sets` and `udf-list`. */
  lemma {:induction false} ListOfShapesBack(num: Numeric, xs: seq<Shape>, c: char, inner: Sep, trail: bool)
    requires forall i | 0 <= i < |xs| :: Fits(xs[i], inner, false)
    requires Fits(WordList(ShapeTexts(xs, inner)), One(c), trail)
    ensures DeepSplit(num, Text(Words(ShapeTexts(xs, inner), c, trail)), [One(c), inner])
         == Done(List(ShapeValues(num, xs)))
  {
    ShapeBack(num, WordList(ShapeTexts(xs, inner)), One(c), trail);
    DeepTwo(num, Words(ShapeTexts(xs, inner), c, trail), One(c), inner);
    ItemsBack(num, xs, inner);
    DeepItems(num, Texts(ShapeTexts(xs, inner)), inner);
  }

  lemma {:induction false} ShapeDeepBack(num: Numeric, x: Shape, sep: Sep, trail: bool)
    requires Fits(x, sep, trail)
    ensures DeepSplit(num, Text(ShapeText(x, sep, trail)), [sep]) == Done(ShapeValue(num, x))
  {
    ShapeBack(num, x, sep, trail);
    assert [sep][1..] == [];
  }

  /** The text of one set, with its trailing separator chopped off, is a single object. */
  lemma {:induction false} ChoppedBack(num: Numeric, ps: Pairs, a: char, b: char)
    requires PairsFree(ps, a, b) && a != b && OwnKeys(ps) && ps != []
    ensures DeepSplit(num, Text(Words(PairTexts(ps, b), a, false) + [';']), [Chop, Two(a, b)])
         == Done(Obj(PairMap(num, ps)))
  {
    var t := Words(PairTexts(ps, b), a, false);
    assert (t + [';'])[..|t + [';']| - 1] == t;
    ObjectBack(num, ps, a, b, false);
    assert [Chop, Two(a, b)][1..] == [Two(a, b)] && [Two(a, b)][1..] == [];
    assert DeepSplit(num, Text(t), [Two(a, b)]) == Done(Obj(PairMap(num, ps)));
  }

  lemma {:induction false} ObjectDeep(num: Numeric, ps: Pairs, a: char, b: char, inner: Sep, trail: bool)
    requires PairsFree(ps, a, b) && a != b && OwnKeys(ps)
    ensures DeepSplit(num, Text(Words(PairTexts(ps, b), a, trail)), [Two(a, b), inner])
         == match SplitFields(num, PairMap(num, ps), inner) case Done(m) => Done(Obj(m)) case TypeErr => TypeErr
  {
    ObjectBack(num, ps, a, b, trail);
    DeepTwo(num, Words(PairTexts(ps, b), a, trail), Two(a, b), inner);
    DeepFields(num, PairMap(num, ps), inner);
  }

  lemma {:induction false} DeepTwo(num: Numeric, s: string, sep: Sep, inner: Sep)
    requires SplitValue(num, Text(s), sep).Done?
    ensures DeepSplit(num, Text(s), [sep, inner]) == DeepSplit(num, SplitValue(num, Text(s), sep).value, [inner])
  {
    assert [sep, inner][1..] == [inner];
  }

  lemma {:induction false} DeepFields(num: Numeric, m: map<string, Value>, sep: Sep)
    ensures DeepSplit(num, Obj(m), [sep])
         == match SplitFields(num, m, sep) case Done(r) => Done(Obj(r)) case TypeErr => TypeErr
  {
    assert [sep][1..] == [];
    var r := SplitFields(num, m, sep);
    if r.Done? { assert DeepSplit(num, Obj(r.value), []) == Done(Obj(r.value)); }
  }

  lemma {:induction false} DeepItems(num: Numeric, vs: seq<Value>, sep: Sep)
    ensures DeepSplit(num, List(vs), [sep])
         == match SplitItems(num, vs, sep) case Done(r) => Done(List(r)) case TypeErr => TypeErr
  {
    assert [sep][1..] == [];
    var r := SplitItems(num, vs, sep);
    if r.Done? { assert DeepSplit(num, List(r.value), []) == Done(List(r.value)); }
  }

  lemma {:induction false} FieldsSplit(num: Numeric, ps: Pairs, inner: Sep)
    requires !inner.SmartParse?
    requires forall i, j | 0 <= i < j < |ps| :: ps[i].0 != ps[j].0
    ensures var r := SplitFields(num, PairMap(num, ps), inner);
      && (r.Done? <==> forall i | 0 <= i < |ps| :: !num(ps[i].1))
      && (r.Done? ==> forall i | 0 <= i < |ps| ::
            ps[i].0 in r.value && SplitValue(num, Text(ps[i].1), inner) == Done(r.value[ps[i].0]))
  {
    PairLookup(num, ps);
    if i :| 0 <= i < |ps| && num(ps[i].1) {
      NumbersDoNotSplit(num, ps[i].1, inner);
      assert ps[i].0 in PairMap(num, ps);
    } else {
      TextsSplit(num, ps, inner, PairMap(num, ps));
    }
  }

  lemma {:induction false} TextsSplit(num: Numeric, ps: Pairs, inner: Sep, m: map<string, Value>)
    requires !inner.SmartParse?
    requires forall i | 0 <= i < |ps| ::
      !num(ps[i].1) && ps[i].0 in m && m[ps[i].0] == ParseValue(num, Some(ps[i].1))
    requires forall k | k in m :: exists i | 0 <= i < |ps| :: ps[i].0 == k
    ensures var r := SplitFields(num, m, inner);
      && r.Done?
      && forall i | 0 <= i < |ps| ::
           ps[i].0 in r.value && SplitValue(num, Text(ps[i].1), inner) == Done(r.value[ps[i].0])
  {
    forall i | 0 <= i < |ps| ensures m[ps[i].0] == Text(ps[i].1) && SplitValue(num, m[ps[i].0], inner).Done? {
      NumbersDoNotSplit(num, ps[i].1, inner);
    }
    forall k | k in m ensures SplitValue(num, m[k], inner).Done? {
      var i :| 0 <= i < |ps| && ps[i].0 == k;
    }
  }

  lemma {:induction false} NumbersDoNotSplit(num: Numeric, t: string, inner: Sep)
    requires !inner.SmartParse?
    ensures SplitValue(num, ParseValue(num, Some(t)), inner).Done? <==> !num(t)
    ensures !num(t) ==> ParseValue(num, Some(t)) == Text(t)
  {
  }

  // The whole response.

  /** A response of lines comes back as one field for each key; each is what the separators of
      its key make of its text, unless the whole text is a number. */
  lemma {:induction false} ResponseBack(num: Numeric, lines: Pairs, seps: string -> seq<Sep>, trail: bool)
    requires PairsFree(lines, '\n', '\t') && OwnKeys(lines) && lines != []
    requires forall i, j | 0 <= i < j < |lines| :: lines[i].0 != lines[j].0
    requires forall i | 0 <= i < |lines| :: DeepSplit(num, ParseValue(num, Some(lines[i].1)), seps(lines[i].0)).Done?
    ensures var r := Parse(num, Words(PairTexts(lines, '\t'), '\n', trail), seps);
      && r.Done? && (forall k | k in r.value :: exists i | 0 <= i < |lines| :: lines[i].0 == k)
      && forall i | 0 <= i < |lines| ::
           lines[i].0 in r.value
           && DeepSplit(num, ParseValue(num, Some(lines[i].1)), seps(lines[i].0)) == Done(r.value[lines[i].0])
  {
    var text := Words(PairTexts(lines, '\t'), '\n', trail);
    ObjectBack(num, lines, '\n', '\t', trail);
    PairLookup(num, lines);
    NotEmpty(lines, trail);
    var hash := KeyValues(num, text, '\n', '\t');
    forall k | k in hash ensures DeepSplit(num, hash[k], seps(k)).Done? {
      var i :| 0 <= i < |lines| && lines[i].0 == k;
      assert hash[lines[i].0] == ParseValue(num, Some(lines[i].1));
    }
  }

  lemma {:induction false} NotEmpty(lines: Pairs, trail: bool)
    requires lines != []
    ensures Words(PairTexts(lines, '\t'), '\n', trail) != []
  {
    var items := PairTexts(lines, '\t');
    assert |items[0]| >= 1;
    if |items| > 1 { assert |Join(items, '\n')| >= |items[0]| + 1; }
  }

  /** A text that is a number is not split at all, whatever the separators: a list printed as
      one number comes back as that number, so it comes back as a list exactly when its text is
      not a number. */
  lemma {:induction false} NumberIsNotSplit(num: Numeric, words: seq<string>, c: char, trail: bool)
    requires Fits(WordList(words), One(c), trail)
    ensures var t := Words(words, c, trail);
      DeepSplit(num, ParseValue(num, Some(t)), [One(c)]) == Done(List(Texts(words))) <==> !num(t)
  {
    ShapeDeepBack(num, WordList(words), One(c), trail);
    assert [One(c)][1..] == [];
  }

  /** Only two levels can be split: with a third separator the parser throws on every text but
      the empty one. */
  lemma {:induction false} ThirdLevelThrows(num: Numeric, s: string, a: char, b: char, c: char)
    ensures DeepSplit(num, Text(s), [One(a), One(b), One(c)]).TypeErr? <==> s != []
  {
    var seps := [One(a), One(b), One(c)];
    assert seps[1..] == [One(b), One(c)] && [One(b), One(c)][1..] == [One(c)] && [One(c)][1..] == [];
    var items := DropEmptyLast(Split(s, a));
    PiecesExist(s, a);
    SecondLevel(num, items, b);
    var vs := SplitItems(num, Texts(items), One(b));
    assert DeepSplit(num, Text(s), seps) == DeepSplit(num, List(vs.value), [One(c)]);
  }

  lemma {:induction false} PiecesExist(s: string, a: char)
    ensures DropEmptyLast(Split(s, a)) == [] <==> s == []
  {
    JoinSplit(s, a);
    var ps := Split(s, a);
    if |ps| == 1 { assert ps[0] == s; }
  }

  /** The second level is all lists. */
  lemma {:induction false} SecondLevel(num: Numeric, items: seq<string>, b: char)
    ensures var r := SplitItems(num, Texts(items), One(b));
      r.Done? && |r.value| == |items| && (items != [] ==> r.value[0].List?)
  {
    if items != [] {
      SecondLevel(num, items[1..], b);
      assert Texts(items)[1..] == Texts(items[1..]);
    }
  }

  /** An undefined value and an empty response stay as they are; a text without lists of separators
      too. */
  lemma {:induction false} NothingToSplit(num: Numeric, seps: seq<Sep>, s: string, all: string -> seq<Sep>)
    ensures DeepSplit(num, Undefined, seps) == Done(Undefined) && DeepSplit(num, Text(s), []) == Done(Text(s))
    ensures Parse(num, [], all) == Done(map[])
  {
  }

  /** A line with a key and no tab is a field without a value. */
  lemma {:induction false} KeyOnly(num: Numeric, key: string, seps: string -> seq<Sep>)
    requires Free(key, '\n') && Free(key, '\t') && key != [] && key != "__proto__"
    ensures Parse(num, key, seps) == Done(map[key := Undefined])
  {
    SplitFree(key, '\n');
    SplitFree(key, '\t');
    assert [key][..0] == [];
    assert Fields(num, [key], '\t') == map[key := Undefined];
    var m: map<string, Value> := map[key := Undefined];
    forall k | k in m ensures DeepSplit(num, m[k], seps(k)) == Done(m[k]) {
      NothingToSplit(num, seps(k), k, seps);
    }
    assert SplitByKey(num, m, seps).value == m;
  }

  /** Of values that are no text, `smartParse` hands back everything and nothing else can be split. */
  lemma {:induction false} OnlyText(num: Numeric, v: Value, sep: Sep)
    requires !v.Text?
    ensures SplitValue(num, v, sep) == if sep == SmartParse then Done(v) else TypeErr
  {
  }

  /** No parsed object has the key that cannot be its own. */
  lemma {:induction false} NeverProto(num: Numeric, items: seq<string>, sep: char)
    ensures "__proto__" !in Fields(num, items, sep) && "__proto__" !in BinStats(num, items).0
  {
    if items != [] { NeverProto(num, items[..|items| - 1], sep); }
  }
}
