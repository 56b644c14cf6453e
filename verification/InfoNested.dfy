/** Printing a whole info response, whose values are shaped by the separators of their keys, and
    parsing it again. */
module InfoNested {
  import opened Prelude
  import opened InfoText
  import opened InfoRoundTrip
  import D = Decimals

  // Bins: statistics with a value, then names without.

  datatype Bins = Bins(stats: Pairs, names: seq<string>)

  function BinItems(b: Bins): seq<string> { PairTexts(b.stats, '=') + b.names }

  function BinsText(b: Bins): string { Words(BinItems(b), ',', false) }

  predicate BinsFree(b: Bins) {
    PairsFree(b.stats, ',', '=') && OwnKeys(b.stats) && AllFree(b.names, ',') && AllFree(b.names, '=')
  }

  /** The statistics as an object and the names as a list. */
  function BinsMeaning(num: Numeric, b: Bins): Value {
    Obj(map["stats" := Obj(PairMap(num, b.stats)), "names" := List(Texts(b.names))])
  }

  /** Bins come back from their text if and only if there are any. */
  lemma {:induction false} BinsExact(num: Numeric, b: Bins)
    requires BinsFree(b)
    ensures SplitValue(num, Text(BinsText(b)), SplitBins) == Done(BinsMeaning(num, b))
            <==> b.stats != [] || b.names != []
  {
    BinsSplit(b);
    ItemsEmpty(b);
    if BinItems(b) != [] { SomeBins(num, b); } else { NoBinsBack(num, b); }
  }

  lemma {:induction false} ItemsEmpty(b: Bins)
    ensures BinItems(b) == [] <==> b.stats == [] && b.names == []
  {
    assert |BinItems(b)| == |b.stats| + |b.names|;
  }

  lemma {:induction false} NoBinsBack(num: Numeric, b: Bins)
    requires b.names == [] && Split(BinsText(b), ',') == [[]]
    ensures SplitValue(num, Text(BinsText(b)), SplitBins) != Done(BinsMeaning(num, b))
  {
    NoBins(num);
    NamesTell(num, (map[], [[]]), b);
  }

  lemma {:induction false} SomeBins(num: Numeric, b: Bins)
    requires BinsFree(b) && Split(BinsText(b), ',') == BinItems(b)
    ensures SplitValue(num, Text(BinsText(b)), SplitBins) == Done(BinsMeaning(num, b))
  {
    BinsBack(num, b.stats, b.names);
    MeaningIs(num, b);
  }

  lemma {:induction false} BinsSplit(b: Bins)
    requires BinsFree(b)
    ensures Split(BinsText(b), ',') == if BinItems(b) == [] then [[]] else BinItems(b)
  {
    var items := BinItems(b);
    PairTextsFree(b.stats, ',', '=');
    SplitWords(items, ',', false);
    assert items + [] == items;
  }

  lemma {:induction false} MeaningIs(num: Numeric, b: Bins)
    ensures BinsValue((PairMap(num, b.stats), b.names)) == BinsMeaning(num, b)
  {
  }

  lemma {:induction false} NamesTell(num: Numeric, x: (map<string, Value>, seq<string>), b: Bins)
    requires |x.1| != |b.names|
    ensures BinsValue(x) != BinsMeaning(num, b)
  {
    var m := BinsMeaning(num, b);
    assert "names" in m.fields && m.fields["names"] == List(Texts(b.names)) && |Texts(b.names)| == |b.names|;
    assert "names" in BinsValue(x).fields && BinsValue(x).fields["names"] == List(Texts(x.1)) && |Texts(x.1)| == |x.1|;
  }

  lemma {:induction false} NoBins(num: Numeric)
    ensures BinStats(num, [[]]) == (map[], [[]])
  {
    var items: seq<string> := [[]];
    assert items[..0] == [];
    assert BinStats(num, items[..0]) == (map[], []);
    assert Split([], '=') == [[]];
    var none: seq<string> := [];
    assert none + [[]] == items;
  }

  // Maps with given keys and values.

  function MapOf(ps: seq<(string, Value)>): map<string, Value> {
    if ps == [] then map[] else MapOf(ps[..|ps| - 1])[ps[|ps| - 1].0 := ps[|ps| - 1].1]
  }

  predicate Distinct(ps: seq<(string, Value)>) { forall i, j | 0 <= i < j < |ps| :: ps[i].0 != ps[j].0 }

  ghost predicate IsMapOf(m: map<string, Value>, ps: seq<(string, Value)>) {
    && (forall i | 0 <= i < |ps| :: ps[i].0 in m && m[ps[i].0] == ps[i].1)
    && (forall k | k in m :: exists i | 0 <= i < |ps| :: ps[i].0 == k)
  }

  lemma {:induction false} MapOfExact(m: map<string, Value>, ps: seq<(string, Value)>)
    requires Distinct(ps)
    ensures m == MapOf(ps) <==> IsMapOf(m, ps)
  {
    MapOfHas(ps);
    if IsMapOf(m, ps) {
      forall k | k in m ensures k in MapOf(ps) && MapOf(ps)[k] == m[k] {
        var i :| 0 <= i < |ps| && ps[i].0 == k;
      }
      forall k | k in MapOf(ps) ensures k in m {
        var i :| 0 <= i < |ps| && ps[i].0 == k;
      }
    }
  }

  lemma {:induction false} MapOfHas(ps: seq<(string, Value)>)
    requires Distinct(ps)
    ensures IsMapOf(MapOf(ps), ps)
  {
    if ps != [] {
      var n := |ps| - 1;
      MapOfHas(ps[..n]);
      assert forall i | 0 <= i < n :: ps[..n][i] == ps[i];
    }
  }

  // Values shaped by the separators of their key: all shapes of the separator table.

  datatype Nested =
    | Plain(s: string)
    | SmartList(words: seq<string>)
    | SmartRecord(pairs: Pairs, trail: bool)
    | Flat(x: Shape, trail: bool)
    | Shapes(xs: seq<Shape>, trail: bool)
    | Single(pairs: Pairs)
    | BinsOf(bins: Bins)
    | BinsByKey(entries: seq<(string, Bins)>, trail: bool)

  function EntryPairs(es: seq<(string, Bins)>): Pairs {
    seq(|es|, i requires 0 <= i < |es| => (es[i].0, BinsText(es[i].1)))
  }

  function EntryValues(num: Numeric, es: seq<(string, Bins)>): seq<(string, Value)> {
    seq(|es|, i requires 0 <= i < |es| => (es[i].0, BinsMeaning(num, es[i].1)))
  }

  /** The separators have the form that the shape needs. */
  predicate Matches(v: Nested, seps: seq<Sep>) {
    match v
    case Plain(_) => seps == [SmartParse]
    case SmartList(_) => seps == [SmartParse]
    case SmartRecord(_, _) => seps == [SmartParse]
    case Flat(_, _) => |seps| == 1
    case Shapes(_, _) => |seps| == 2 && seps[0].One?
    case Single(_) => |seps| == 2 && seps[0].Chop? && seps[1].Two?
    case BinsOf(_) => seps == [SplitBins]
    case BinsByKey(_, _) => |seps| == 2 && seps[0].Two? && seps[1].SplitBins?
  }

  function PrintNested(v: Nested, seps: seq<Sep>): string
    requires Matches(v, seps)
  {
    match v
    case Plain(s) => s
    case SmartList(words) => Words(words, ';', false)
    case SmartRecord(pairs, trail) => Words(PairTexts(pairs, '='), ';', trail)
    case Flat(x, trail) => ShapeText(x, seps[0], trail)
    case Shapes(xs, trail) => Words(ShapeTexts(xs, seps[1]), seps[0].c, trail)
    case Single(pairs) => Words(PairTexts(pairs, seps[1].b), seps[1].a, false) + [';']
    case BinsOf(bins) => BinsText(bins)
    case BinsByKey(entries, trail) => Words(PairTexts(EntryPairs(entries), seps[0].b), seps[0].a, trail)
  }

  /** The value is shaped by the separators, and its pieces contain no separator. */
  predicate WellShaped(v: Nested, seps: seq<Sep>)
    requires Matches(v, seps)
  {
    match v
    case Plain(s) => ';' !in s
    case SmartList(words) => |words| > 1 && AllFree(words, ';') && AllFree(words, '=')
    case SmartRecord(pairs, trail) =>
      PairsFree(pairs, ';', '=') && OwnKeys(pairs) && (|pairs| > 1 || (trail && pairs != []))
    case Flat(x, trail) => Fits(x, seps[0], trail)
    case Shapes(xs, trail) =>
      (forall i | 0 <= i < |xs| :: Fits(xs[i], seps[1], false))
      && Fits(WordList(ShapeTexts(xs, seps[1])), seps[0], trail)
    case Single(pairs) =>
      PairsFree(pairs, seps[1].a, seps[1].b) && seps[1].a != seps[1].b && OwnKeys(pairs) && pairs != []
    case BinsOf(bins) => BinsFree(bins) && (bins.stats != [] || bins.names != [])
    case BinsByKey(entries, trail) =>
      && PairsFree(EntryPairs(entries), seps[0].a, seps[0].b) && seps[0].a != seps[0].b
      && OwnKeys(EntryPairs(entries))
      && (forall i, j | 0 <= i < j < |entries| :: entries[i].0 != entries[j].0)
      && forall i | 0 <= i < |entries| ::
           BinsFree(entries[i].1) && (entries[i].1.stats != [] || entries[i].1.names != [])
  }

  function Meaning(num: Numeric, v: Nested): Value {
    match v
    case Plain(s) => ParseValue(num, Some(s))
    case SmartList(words) => List(Texts(words))
    case SmartRecord(pairs, _) => Obj(PairMap(num, pairs))
    case Flat(x, _) => ShapeValue(num, x)
    case Shapes(xs, _) => List(ShapeValues(num, xs))
    case Single(pairs) => Obj(PairMap(num, pairs))
    case BinsOf(bins) => BinsMeaning(num, bins)
    case BinsByKey(entries, _) => Obj(MapOf(EntryValues(num, entries)))
  }

  /** Nothing that is to be split is the text of a number. */
  predicate Splittable(num: Numeric, v: Nested, seps: seq<Sep>)
    requires Matches(v, seps)
  {
    && (v.Plain? || !num(PrintNested(v, seps)))
    && (v.BinsByKey? ==> forall i | 0 <= i < |v.entries| :: !num(BinsText(v.entries[i].1)))
  }

  // One value.

  lemma {:induction false} SmartBack(num: Numeric, v: Nested)
    requires Matches(v, [SmartParse]) && WellShaped(v, [SmartParse]) && (v.Plain? || v.SmartList? || v.SmartRecord?)
    ensures !num(PrintNested(v, [SmartParse])) ==> Smart(num, PrintNested(v, [SmartParse])) == Meaning(num, v)
  {
    match v
    case Plain(s) =>
    case SmartList(words) =>
      SplitWords(words, ';', false);
      assert words + [] == words;
      NoEquals(words);
      SplitFound(Words(words, ';', false), ';');
    case SmartRecord(pairs, trail) =>
      var text := Words(PairTexts(pairs, '='), ';', trail);
      ObjectBack(num, pairs, ';', '=', trail);
      PairTextsFree(pairs, ';', '=');
      SplitWords(PairTexts(pairs, '='), ';', trail);
      SplitFound(text, ';');
      EqualsFound(pairs, trail);
  }

  lemma {:induction false} SplitFound(s: string, c: char)
    ensures c in s <==> |Split(s, c)| > 1
  {
    if c !in s {
      SplitFree(s, c);
    } else if s[0] != c {
      SplitFound(s[1..], c);
    }
  }

  lemma {:induction false} NoEquals(words: seq<string>)
    requires words != [] && AllFree(words, '=')
    ensures '=' !in Words(words, ';', false)
  {
    if |words| > 1 {
      NoEquals(words[1..]);
      assert Words(words, ';', false) == words[0] + [';'] + Words(words[1..], ';', false);
    }
  }

  lemma {:induction false} EqualsFound(pairs: Pairs, trail: bool)
    requires pairs != []
    ensures '=' in Words(PairTexts(pairs, '='), ';', trail)
  {
    var items := PairTexts(pairs, '=');
    assert items[0] == pairs[0].0 + ['='] + pairs[0].1;
    assert '=' in items[0];
    assert Join(items, ';') == items[0] || Join(items, ';') == items[0] + [';'] + Join(items[1..], ';');
  }

  lemma {:induction false} BinEntriesBack(num: Numeric, es: seq<(string, Bins)>)
    requires forall i, j | 0 <= i < j < |es| :: es[i].0 != es[j].0
    requires forall i | 0 <= i < |es| :: BinsFree(es[i].1) && (es[i].1.stats != [] || es[i].1.names != [])
    ensures var r := SplitFields(num, PairMap(num, EntryPairs(es)), SplitBins);
      if forall i | 0 <= i < |es| :: !num(BinsText(es[i].1)) then r == Done(MapOf(EntryValues(num, es))) else r.TypeErr?
  {
    var ps := EntryPairs(es);
    var r := SplitFields(num, PairMap(num, ps), SplitBins);
    EntriesSplit(num, es);
    if r.Done? {
      EntriesAre(num, es, r.value);
      MapOfExact(r.value, EntryValues(num, es));
    }
  }

  lemma {:induction false} EntriesSplit(num: Numeric, es: seq<(string, Bins)>)
    requires forall i, j | 0 <= i < j < |es| :: es[i].0 != es[j].0
    ensures var ps := EntryPairs(es); var r := SplitFields(num, PairMap(num, ps), SplitBins);
      && (r.Done? <==> forall i | 0 <= i < |es| :: !num(BinsText(es[i].1)))
      && (r.Done? ==> EntriesIn(num, ps, r.value))
  {
    var ps := EntryPairs(es);
    assert forall i, j | 0 <= i < j < |ps| :: ps[i].0 != ps[j].0;
    assert (forall i | 0 <= i < |es| :: !num(BinsText(es[i].1))) <==> (forall i | 0 <= i < |ps| :: !num(ps[i].1)) by {
      assert forall i | 0 <= i < |ps| :: ps[i].1 == BinsText(es[i].1);
    }
    FieldsSplit(num, ps, SplitBins);
    PairLookup(num, ps);
  }

  ghost predicate EntriesIn(num: Numeric, ps: Pairs, m: map<string, Value>) {
    && (forall i | 0 <= i < |ps| :: ps[i].0 in m && SplitValue(num, Text(ps[i].1), SplitBins) == Done(m[ps[i].0]))
    && (forall k | k in m :: exists i | 0 <= i < |ps| :: ps[i].0 == k)
  }

  lemma {:induction false} EntriesAre(num: Numeric, es: seq<(string, Bins)>, m: map<string, Value>)
    requires forall i | 0 <= i < |es| :: BinsFree(es[i].1) && (es[i].1.stats != [] || es[i].1.names != [])
    requires EntriesIn(num, EntryPairs(es), m)
    ensures IsMapOf(m, EntryValues(num, es))
  {
    var ps, vs := EntryPairs(es), EntryValues(num, es);
    forall i | 0 <= i < |vs| ensures vs[i].0 in m && m[vs[i].0] == vs[i].1 {
      BinsExact(num, es[i].1);
      assert ps[i].0 in m;
    }
    forall k | k in m ensures exists i | 0 <= i < |vs| :: vs[i].0 == k {
      var i :| 0 <= i < |ps| && ps[i].0 == k;
      assert vs[i].0 == k;
    }
  }

  /** A value comes back from its text if and only if nothing that is to be split is the text of a
      number. */
  lemma {:induction false} NestedExact(num: Numeric, v: Nested, seps: seq<Sep>)
    requires Matches(v, seps) && WellShaped(v, seps)
    ensures DeepSplit(num, ParseValue(num, Some(PrintNested(v, seps))), seps) == Done(Meaning(num, v))
            <==> Splittable(num, v, seps)
  {
    var text := PrintNested(v, seps);
    if num(text) {
      NumberStays(num, text, seps);
    } else {
      TextBack(num, v, seps);
    }
  }

  lemma {:induction false} NumberStays(num: Numeric, text: string, seps: seq<Sep>)
    requires seps != []
    ensures DeepSplit(num, Num(text), seps) == Done(Num(text))
    decreases |seps|
  {
    if |seps| > 1 { NumberStays(num, text, seps[1..]); }
  }

  lemma {:induction false} TextBack(num: Numeric, v: Nested, seps: seq<Sep>)
    requires Matches(v, seps) && WellShaped(v, seps) && !num(PrintNested(v, seps))
    ensures DeepSplit(num, Text(PrintNested(v, seps)), seps) == Done(Meaning(num, v)) <==> Splittable(num, v, seps)
  {
    match v
    case Plain(_) => SmartBack(num, v); DeepOne(num, PrintNested(v, seps), SmartParse);
    case SmartList(_) => SmartBack(num, v); DeepOne(num, PrintNested(v, seps), SmartParse);
    case SmartRecord(_, _) => SmartBack(num, v); DeepOne(num, PrintNested(v, seps), SmartParse);
    case Flat(x, trail) => ShapeDeepBack(num, x, seps[0], trail); assert seps == [seps[0]];
    case Shapes(xs, trail) =>
      assert seps == [One(seps[0].c), seps[1]];
      ListOfShapesBack(num, xs, seps[0].c, seps[1], trail);
    case Single(pairs) =>
      assert seps == [Chop, Two(seps[1].a, seps[1].b)];
      ChoppedBack(num, pairs, seps[1].a, seps[1].b);
    case BinsOf(bins) => BinsExact(num, bins); DeepOne(num, PrintNested(v, seps), SplitBins);
    case BinsByKey(entries, trail) =>
      assert seps == [Two(seps[0].a, seps[0].b), SplitBins];
      ObjectDeep(num, EntryPairs(entries), seps[0].a, seps[0].b, SplitBins, trail);
      BinEntriesBack(num, entries);
  }

  lemma {:induction false} DeepOne(num: Numeric, s: string, sep: Sep)
    requires SplitValue(num, Text(s), sep).Done?
    ensures DeepSplit(num, Text(s), [sep]) == SplitValue(num, Text(s), sep)
  {
    assert [sep][1..] == [];
  }

  // The whole response.

  type Lines = seq<(string, Nested)>

  predicate LinesOk(lines: Lines, seps: string -> seq<Sep>) {
    && (forall i, j | 0 <= i < j < |lines| :: lines[i].0 != lines[j].0)
    && (forall i | 0 <= i < |lines| ::
          Matches(lines[i].1, seps(lines[i].0)) && WellShaped(lines[i].1, seps(lines[i].0)))
    && PairsFree(LinePairs(lines, seps), '\n', '\t') && OwnKeys(LinePairs(lines, seps))
  }

  function LinePairs(lines: Lines, seps: string -> seq<Sep>): Pairs
    requires forall i | 0 <= i < |lines| :: Matches(lines[i].1, seps(lines[i].0))
  {
    seq(|lines|, i requires 0 <= i < |lines| => (lines[i].0, PrintNested(lines[i].1, seps(lines[i].0))))
  }

  function LineValues(num: Numeric, lines: Lines): seq<(string, Value)> {
    seq(|lines|, i requires 0 <= i < |lines| => (lines[i].0, Meaning(num, lines[i].1)))
  }

  function PrintResponse(lines: Lines, seps: string -> seq<Sep>, trail: bool): string
    requires LinesOk(lines, seps)
  {
    Words(PairTexts(LinePairs(lines, seps), '\t'), '\n', trail)
  }

  /** Info round trip. A response of lines with different keys, each with a value shaped by the
      separators of its key, comes back from its text, with or without trailing separators, as the
      object of its values if and only if nothing that is to be split is the text of a number. */
  lemma {:induction false} ResponseExact(num: Numeric, lines: Lines, seps: string -> seq<Sep>, trail: bool)
    requires LinesOk(lines, seps)
    ensures Parse(num, PrintResponse(lines, seps, trail), seps) == Done(MapOf(LineValues(num, lines)))
            <==> forall i | 0 <= i < |lines| :: Splittable(num, lines[i].1, seps(lines[i].0))
  {
    var ps, vs := LinePairs(lines, seps), LineValues(num, lines);
    ParseIsSplit(num, ps, seps, trail);
    ByKeyExact(num, ps, vs, seps);
    forall i | 0 <= i < |lines|
      ensures DeepSplit(num, ParseValue(num, Some(ps[i].1)), seps(ps[i].0)) == Done(vs[i].1)
              <==> Splittable(num, lines[i].1, seps(lines[i].0))
    {
      NestedExact(num, lines[i].1, seps(lines[i].0));
    }
  }

  lemma {:induction false} ParseIsSplit(num: Numeric, ps: Pairs, seps: string -> seq<Sep>, trail: bool)
    requires PairsFree(ps, '\n', '\t') && OwnKeys(ps)
    ensures Parse(num, Words(PairTexts(ps, '\t'), '\n', trail), seps) == SplitByKey(num, PairMap(num, ps), seps)
  {
    var text := Words(PairTexts(ps, '\t'), '\n', trail);
    ObjectBack(num, ps, '\n', '\t', trail);
    if text == [] {
      FieldsSkipEmpty(num, [], '\t');
      assert Split(text, '\n') == [[]];
      assert PairMap(num, ps) == map[];
      assert SplitByKey(num, map[], seps) == Done(map[]);
    }
  }

  /** The fields of an object, each split by the separators of its key, are what they should be if
      and only if each one is. */
  lemma {:induction false} ByKeyExact(num: Numeric, ps: Pairs, vs: seq<(string, Value)>, seps: string -> seq<Sep>)
    requires |vs| == |ps| && forall i | 0 <= i < |ps| :: ps[i].0 == vs[i].0
    requires forall i, j | 0 <= i < j < |ps| :: ps[i].0 != ps[j].0
    ensures SplitByKey(num, PairMap(num, ps), seps) == Done(MapOf(vs)) <==>
      forall i | 0 <= i < |ps| :: DeepSplit(num, ParseValue(num, Some(ps[i].1)), seps(ps[i].0)) == Done(vs[i].1)
  {
    var r := SplitByKey(num, PairMap(num, ps), seps);
    if forall i | 0 <= i < |ps| :: DeepSplit(num, ParseValue(num, Some(ps[i].1)), seps(ps[i].0)) == Done(vs[i].1) {
      AllDone(num, ps, seps);
      AllBack(num, ps, vs, seps, r.value);
      MapOfExact(r.value, vs);
    } else {
      var i :| 0 <= i < |ps| && DeepSplit(num, ParseValue(num, Some(ps[i].1)), seps(ps[i].0)) != Done(vs[i].1);
      MapOfHas(vs);
      OneField(num, ps, seps, i);
    }
  }

  lemma {:induction false} OneField(num: Numeric, ps: Pairs, seps: string -> seq<Sep>, i: nat)
    requires i < |ps| && forall j, k | 0 <= j < k < |ps| :: ps[j].0 != ps[k].0
    ensures var r := SplitByKey(num, PairMap(num, ps), seps);
      r.Done? ==> ps[i].0 in r.value
                  && DeepSplit(num, ParseValue(num, Some(ps[i].1)), seps(ps[i].0)) == Done(r.value[ps[i].0])
  {
    PairLookup(num, ps);
  }

  lemma {:induction false} AllDone(num: Numeric, ps: Pairs, seps: string -> seq<Sep>)
    requires forall i, j | 0 <= i < j < |ps| :: ps[i].0 != ps[j].0
    requires forall i | 0 <= i < |ps| :: DeepSplit(num, ParseValue(num, Some(ps[i].1)), seps(ps[i].0)).Done?
    ensures SplitByKey(num, PairMap(num, ps), seps).Done?
  {
    PairLookup(num, ps);
    forall k | k in PairMap(num, ps) ensures DeepSplit(num, PairMap(num, ps)[k], seps(k)).Done? {
      var i :| 0 <= i < |ps| && ps[i].0 == k;
    }
  }

  lemma {:induction false} AllBack(num: Numeric, ps: Pairs, vs: seq<(string, Value)>, seps: string -> seq<Sep>,
                                   r: map<string, Value>)
    requires |vs| == |ps| && forall i | 0 <= i < |ps| :: ps[i].0 == vs[i].0
    requires forall i, j | 0 <= i < j < |ps| :: ps[i].0 != ps[j].0
    requires forall i | 0 <= i < |ps| :: DeepSplit(num, ParseValue(num, Some(ps[i].1)), seps(ps[i].0)) == Done(vs[i].1)
    requires r.Keys == PairMap(num, ps).Keys
    requires forall k | k in r :: DeepSplit(num, PairMap(num, ps)[k], seps(k)) == Done(r[k])
    ensures IsMapOf(r, vs)
  {
    PairLookup(num, ps);
    forall i | 0 <= i < |vs| ensures vs[i].0 in r && r[vs[i].0] == vs[i].1 {
      assert ps[i].0 in PairMap(num, ps);
    }
    forall k | k in r ensures exists i | 0 <= i < |vs| :: vs[i].0 == k {
      var i :| 0 <= i < |ps| && ps[i].0 == k;
      assert vs[i].0 == k;
    }
  }

  // Which texts are numbers.

  /** With the integers as the numbers: the text of an integer, and no other, becomes that number. */
  lemma {:induction false} IntegersBack(s: string)
    ensures ParseValue(D.IsInt, Some(s)) == if exists n :: D.Exact(n) && D.PrintInt(n) == s then Num(s) else Text(s)
    ensures D.IsInt(s) ==> forall n | D.Exact(n) :: Num(D.PrintInt(n)) == Num(s) <==> n == D.ReadInt(s)
  {
    D.IntExact(s);
    if D.IsInt(s) {
      forall n | D.Exact(n) ensures D.PrintInt(n) == s <==> n == D.ReadInt(s) {
        D.IntBack(n);
        if m: int :| D.Exact(m) && D.PrintInt(m) == s { D.IntBack(m); }
      }
    }
  }

  /** Separators that do not occur in the text of an integer. */
  predicate NoDigit(c: char) { !D.Digit(c) && c != '-' }

  predicate NoDigits(seps: seq<Sep>) {
    forall i | 0 <= i < |seps| ::
      (seps[i].One? ==> NoDigit(seps[i].c)) && (seps[i].Two? ==> NoDigit(seps[i].a) && NoDigit(seps[i].b))
  }

  predicate LoneWord(words: seq<string>) { |words| == 1 && D.IsInt(words[0]) }

  predicate LoneName(b: Bins) { b.stats == [] && LoneWord(b.names) }

  /** A value whose text, or the text of one of whose bins, is a single integer. */
  predicate LoneInteger(v: Nested) {
    match v
    case Flat(x, trail) => !trail && x.WordList? && LoneWord(x.words)
    case Shapes(xs, trail) => !trail && |xs| == 1 && xs[0].WordList? && LoneWord(xs[0].words)
    case BinsOf(bins) => LoneName(bins)
    case BinsByKey(entries, _) => exists i :: 0 <= i < |entries| && LoneName(entries[i].1)
    case _ => false
  }

  lemma {:induction false} NotInt(s: string, i: nat)
    requires i < |s| && NoDigit(s[i])
    ensures !D.IsInt(s)
  {
    if D.IsInt(s) { D.IntChars(s, i); }
  }

  lemma {:induction false} WordsInt(ps: seq<string>, c: char, trail: bool)
    requires NoDigit(c)
    ensures D.IsInt(Words(ps, c, trail)) <==> !trail && LoneWord(ps)
  {
    var s := Words(ps, c, trail);
    if trail {
      NotInt(s, |s| - 1);
    } else if |ps| > 1 {
      assert s[|ps[0]|] == c;
      NotInt(s, |ps[0]|);
    } else if |ps| == 1 {
      assert s == ps[0];
    }
  }

  lemma {:induction false} PairsInt(ps: Pairs, a: char, b: char, trail: bool)
    requires NoDigit(a) && NoDigit(b)
    ensures !D.IsInt(Words(PairTexts(ps, b), a, trail))
  {
    WordsInt(PairTexts(ps, b), a, trail);
    if |ps| == 1 { NotInt(PairText(ps[0], b), |ps[0].0|); }
  }

  lemma {:induction false} ShapeInt(x: Shape, sep: Sep, trail: bool)
    requires Fits(x, sep, trail) && NoDigits([sep])
    ensures D.IsInt(ShapeText(x, sep, trail)) <==> !trail && x.WordList? && LoneWord(x.words)
  {
    assert [sep][0] == sep;
    match x
    case WordList(words) => WordsInt(words, sep.c, trail);
    case Record(pairs) => PairsInt(pairs, sep.a, sep.b, trail);
  }

  lemma {:induction false} BinsInt(b: Bins)
    ensures D.IsInt(BinsText(b)) <==> LoneName(b)
  {
    WordsInt(BinItems(b), ',', false);
    if |BinItems(b)| == 1 && b.stats != [] {
      NotInt(PairText(b.stats[0], '='), |b.stats[0].0|);
    }
  }

  /** Which values of the separator table come back if integers are the numbers: all whose text is
      not a single integer. */
  lemma {:induction false} IntegerExact(v: Nested, seps: seq<Sep>)
    requires Matches(v, seps) && WellShaped(v, seps) && NoDigits(seps)
    ensures Splittable(D.IsInt, v, seps) <==> !LoneInteger(v)
  {
    match v
    case Plain(_) =>
    case SmartList(words) => WordsInt(words, ';', false);
    case SmartRecord(pairs, trail) => PairsInt(pairs, ';', '=', trail);
    case Flat(x, trail) => ShapeInt(x, seps[0], trail);
    case Shapes(xs, trail) =>
      WordsInt(ShapeTexts(xs, seps[1]), seps[0].c, trail);
      if |xs| == 1 { ShapeInt(xs[0], seps[1], false); }
    case Single(pairs) =>
      var s := PrintNested(v, seps);
      NotInt(s, |s| - 1);
    case BinsOf(bins) => BinsInt(bins);
    case BinsByKey(entries, trail) =>
      PairsInt(EntryPairs(entries), seps[0].a, seps[0].b, trail);
      forall i | 0 <= i < |entries| ensures D.IsInt(BinsText(entries[i].1)) <==> LoneName(entries[i].1) {
        BinsInt(entries[i].1);
      }
  }

  /** With integers as the numbers, a whole response comes back if and only if none of its values is
      a list of one integer, or bins of one integer name. */
  lemma {:induction false} IntegerResponse(lines: Lines, seps: string -> seq<Sep>, trail: bool)
    requires LinesOk(lines, seps) && forall i | 0 <= i < |lines| :: NoDigits(seps(lines[i].0))
    ensures Parse(D.IsInt, PrintResponse(lines, seps, trail), seps) == Done(MapOf(LineValues(D.IsInt, lines)))
            <==> forall i | 0 <= i < |lines| :: !LoneInteger(lines[i].1)
  {
    ResponseExact(D.IsInt, lines, seps, trail);
    forall i | 0 <= i < |lines|
      ensures Splittable(D.IsInt, lines[i].1, seps(lines[i].0)) <==> !LoneInteger(lines[i].1)
    {
      IntegerExact(lines[i].1, seps(lines[i].0));
    }
  }
}
