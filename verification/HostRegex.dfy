/** The regular expression of lib/utils.js as it is written, and what it means. */
module HostRegex {
  import opened Prelude
  import opened InfoText
  import D = Decimals
  import H = HostString

  type Ranges = seq<(char, char)>

  datatype Re =
    | Class(ranges: Ranges)
    | Cat(left: Re, right: Re)
    | Alt(left: Re, right: Re)
    | Repeat(re: Re, min: nat, max: Option<nat>)

  predicate InRanges(c: char, rs: Ranges) { exists i :: 0 <= i < |rs| && rs[i].0 <= c <= rs[i].1 }

  ghost predicate In(s: string, r: Re)
    decreases r, 0
  {
    match r
    case Class(rs) => |s| == 1 && InRanges(s[0], rs)
    case Cat(a, b) => exists i :: 0 <= i <= |s| && In(s[..i], a) && In(s[i..], b)
    case Alt(a, b) => In(s, a) || In(s, b)
    case Repeat(a, min, max) => exists n: nat :: min <= n && (max.Some? ==> n <= max.value) && Times(s, a, n)
  }

  ghost predicate Times(s: string, r: Re, n: nat)
    decreases r, n + 1
  {
    if n == 0 then s == [] else exists i :: 0 <= i <= |s| && In(s[..i], r) && Times(s[i..], r, n - 1)
  }

  // The expression, with both cases of each letter since it ignores case.

  function Char(c: char): Re { Class([(c, c)]) }

  function Optional(r: Re): Re { Repeat(r, 0, Some(1)) }

  const HEX: Ranges := [('0', '9'), ('a', 'f'), ('A', 'F'), (':', ':')]
  const DIGIT: Ranges := [('0', '9')]
  const FIRST: Ranges := [('a', 'z'), ('A', 'Z')]
  const OTHER: Ranges := [('a', 'z'), ('A', 'Z'), ('0', '9'), ('-', '-'), ('.', '.')]

  const BRACKETS := Cat(Char('['), Cat(Repeat(Class(HEX), 1, None), Char(']')))
  const OCTET := Repeat(Class(DIGIT), 1, Some(3))
  const GROUP := Cat(OCTET, Char('.'))
  const DOTTED := Cat(Repeat(GROUP, 3, Some(3)), OCTET)
  const NAME := Cat(Class(FIRST), Repeat(Class(OTHER), 1, None))
  const PORT := Repeat(Class(DIGIT), 1, None)
  const ADDRESS := Alt(BRACKETS, Alt(DOTTED, NAME))
  const HOST := Cat(ADDRESS, Cat(Optional(Cat(Char(':'), NAME)), Optional(Cat(Char(':'), PORT))))

  // Building blocks.

  lemma {:induction false} TimesClass(s: string, rs: Ranges, n: nat)
    ensures Times(s, Class(rs), n) <==> |s| == n && forall i | 0 <= i < |s| :: InRanges(s[i], rs)
    decreases n
  {
    if n > 0 {
      forall i | 0 <= i <= |s|
        ensures Times(s[i..], Class(rs), n - 1) <==> |s| - i == n - 1 && forall j | i <= j < |s| :: InRanges(s[j], rs)
      {
        TimesClass(s[i..], rs, n - 1);
        assert forall j | i <= j < |s| :: s[j] == s[i..][j - i];
      }
      if |s| == n && forall i | 0 <= i < |s| :: InRanges(s[i], rs) {
        assert In(s[..1], Class(rs)) && Times(s[1..], Class(rs), n - 1);
      }
    }
  }

  lemma {:induction false} RepeatClass(s: string, rs: Ranges, min: nat, max: Option<nat>)
    ensures In(s, Repeat(Class(rs), min, max))
       <==> min <= |s| && (max.Some? ==> |s| <= max.value) && forall i | 0 <= i < |s| :: InRanges(s[i], rs)
  {
    forall n: nat ensures Times(s, Class(rs), n) <==> |s| == n && forall i | 0 <= i < |s| :: InRanges(s[i], rs) {
      TimesClass(s, rs, n);
    }
    if forall i | 0 <= i < |s| :: InRanges(s[i], rs) { assert Times(s, Class(rs), |s|); }
  }

  lemma {:induction false} CharIn(s: string, c: char)
    ensures In(s, Char(c)) <==> s == [c]
  {
    assert InRanges(c, [(c, c)]) by { assert [(c, c)][0] == (c, c); }
  }

  lemma {:induction false} CatIn(a: string, b: string, x: Re, y: Re)
    requires In(a, x) && In(b, y)
    ensures In(a + b, Cat(x, y))
  {
    var s := a + b;
    assert s[..|a|] == a && s[|a|..] == b;
  }

  /** The two parts of a string in a concatenation. */
  lemma {:induction false} CatParts(s: string, x: Re, y: Re) returns (a: string, b: string)
    requires In(s, Cat(x, y))
    ensures s == a + b && In(a, x) && In(b, y)
  {
    var i :| 0 <= i <= |s| && In(s[..i], x) && In(s[i..], y);
    a, b := s[..i], s[i..];
  }

  lemma {:induction false} OptionalIn(s: string, r: Re)
    ensures In(s, Optional(r)) <==> s == [] || In(s, r)
  {
    assert Times(s, r, 0) <==> s == [];
    assert Times(s, r, 1) <==> In(s, r) by {
      if In(s, r) {
        assert s[..|s|] == s && s[|s|..] == [] && Times(s[|s|..], r, 0);
      }
      if Times(s, r, 1) {
        var i :| 0 <= i <= |s| && In(s[..i], r) && Times(s[i..], r, 0);
        assert s[..i] == s;
      }
    }
  }

  // The parts.

  lemma {:induction false} Classes(c: char)
    ensures InRanges(c, HEX) <==> H.HexColon(c)
    ensures InRanges(c, DIGIT) <==> D.Digit(c)
    ensures InRanges(c, FIRST) <==> H.Letter(c)
    ensures InRanges(c, OTHER) <==> H.NameChar(c)
  {
    assert HEX[0] == ('0', '9') && HEX[1] == ('a', 'f') && HEX[2] == ('A', 'F') && HEX[3] == (':', ':');
    assert DIGIT[0] == ('0', '9') && FIRST[0] == ('a', 'z') && FIRST[1] == ('A', 'Z');
    assert OTHER[0] == ('a', 'z') && OTHER[1] == ('A', 'Z') && OTHER[2] == ('0', '9');
    assert OTHER[3] == ('-', '-') && OTHER[4] == ('.', '.');
  }

  lemma {:induction false} AllDigits(s: string, max: Option<nat>)
    ensures In(s, Repeat(Class(DIGIT), 1, max)) <==> D.Digits(s) && (max.Some? ==> |s| <= max.value)
  {
    RepeatClass(s, DIGIT, 1, max);
    forall i | 0 <= i < |s| ensures InRanges(s[i], DIGIT) <==> D.Digit(s[i]) { Classes(s[i]); }
  }

  lemma {:induction false} NameIn(s: string)
    ensures In(s, NAME) <==> H.Name(s)
  {
    if In(s, NAME) {
      var a, b := CatParts(s, Class(FIRST), Repeat(Class(OTHER), 1, None));
      RepeatClass(b, OTHER, 1, None);
      Classes(a[0]);
      forall i | 1 <= i < |s| ensures H.NameChar(s[i]) {
        assert s[i] == b[i - 1];
        Classes(s[i]);
      }
    }
    if H.Name(s) {
      forall i | 0 <= i < |s[1..]| ensures InRanges(s[1..][i], OTHER) {
        assert H.NameChar(s[i + 1]);
        Classes(s[i + 1]);
      }
      RepeatClass(s[1..], OTHER, 1, None);
      Classes(s[0]);
      CatIn(s[..1], s[1..], Class(FIRST), Repeat(Class(OTHER), 1, None));
      assert s == s[..1] + s[1..];
    }
  }

  lemma {:induction false} HexIn(h: string)
    ensures In(h, Repeat(Class(HEX), 1, None)) <==> H.Hex(h)
  {
    RepeatClass(h, HEX, 1, None);
    forall i | 0 <= i < |h| ensures InRanges(h[i], HEX) <==> H.HexColon(h[i]) { Classes(h[i]); }
  }

  lemma {:induction false} BracketsIn(s: string)
    ensures In(s, BRACKETS) <==> H.Bracketed(s)
  {
    if In(s, BRACKETS) { BracketsOut(s); }
    if H.Bracketed(s) {
      Enclosed(s);
      EnclosedIn(s[1..|s| - 1]);
    }
  }

  lemma {:induction false} Enclosed(s: string)
    requires |s| > 1 && s[0] == '[' && s[|s| - 1] == ']'
    ensures s == ['['] + (s[1..|s| - 1] + [']'])
  {
  }

  lemma {:induction false} EnclosedIn(h: string)
    requires H.Hex(h)
    ensures In(['['] + (h + [']']), BRACKETS)
  {
    HexIn(h);
    CharIn(['['], '[');
    CharIn([']'], ']');
    CatIn(h, [']'], Repeat(Class(HEX), 1, None), Char(']'));
    CatIn(['['], h + [']'], Char('['), Cat(Repeat(Class(HEX), 1, None), Char(']')));
  }

  lemma {:induction false} BracketsOut(s: string)
    requires In(s, BRACKETS)
    ensures H.Bracketed(s)
  {
    var a, b := CatParts(s, Char('['), Cat(Repeat(Class(HEX), 1, None), Char(']')));
    var h, c := CatParts(b, Repeat(Class(HEX), 1, None), Char(']'));
    CharIn(a, '[');
    CharIn(c, ']');
    HexIn(h);
    assert s == ['['] + h + [']'] && s[1..|s| - 1] == h;
  }

  // Four octets.

  predicate Octet(s: string) { D.Digits(s) && |s| <= 3 }

  function Four(a: string, b: string, c: string, d: string): string {
    a + ['.'] + (b + ['.'] + (c + ['.'] + d))
  }

  function Three(a: string, b: string, c: string): string { a + ['.'] + (b + ['.'] + (c + ['.'])) }

  lemma {:induction false} FourSplit(a: string, b: string, c: string, d: string)
    requires Octet(a) && Octet(b) && Octet(c) && Octet(d)
    ensures Split(Four(a, b, c, d), '.') == [a, b, c, d]
  {
    NoDot(a);
    NoDot(b);
    NoDot(c);
    NoDot(d);
    SplitFirst(a, b + ['.'] + (c + ['.'] + d), '.');
    SplitFirst(b, c + ['.'] + d, '.');
    SplitFirst(c, d, '.');
    SplitFree(d, '.');
  }

  lemma {:induction false} NoDot(s: string)
    requires Octet(s)
    ensures Free(s, '.')
  {
  }

  lemma {:induction false} DottedIsFour(s: string) returns (a: string, b: string, c: string, d: string)
    requires H.Dotted(s)
    ensures Octet(a) && Octet(b) && Octet(c) && Octet(d) && s == Four(a, b, c, d)
  {
    var ps := Split(s, '.');
    a, b, c, d := ps[0], ps[1], ps[2], ps[3];
    JoinSplit(s, '.');
    assert ps[1..][1..][1..] == [d];
    assert Join(ps[1..][1..], '.') == c + ['.'] + d;
    assert Join(ps[1..], '.') == b + ['.'] + (c + ['.'] + d);
  }

  lemma {:induction false} GroupIn(s: string)
    ensures In(s, GROUP) <==> s != [] && s[|s| - 1] == '.' && Octet(s[..|s| - 1])
  {
    if In(s, GROUP) {
      var a, b := CatParts(s, OCTET, Char('.'));
      CharIn(b, '.');
      AllDigits(a, Some(3));
      assert s[..|s| - 1] == a;
    }
    if s != [] && s[|s| - 1] == '.' && Octet(s[..|s| - 1]) {
      AllDigits(s[..|s| - 1], Some(3));
      CharIn(['.'], '.');
      CatIn(s[..|s| - 1], ['.'], OCTET, Char('.'));
      assert s == s[..|s| - 1] + ['.'];
    }
  }

  lemma {:induction false} OneMoreTime(a: string, b: string, r: Re, n: nat)
    requires In(a, r) && Times(b, r, n)
    ensures Times(a + b, r, n + 1)
  {
    var s := a + b;
    assert s[..|a|] == a && s[|a|..] == b;
  }

  lemma {:induction false} FirstTime(s: string, r: Re, n: nat) returns (a: string, b: string)
    requires Times(s, r, n + 1)
    ensures s == a + b && In(a, r) && Times(b, r, n)
  {
    var i :| 0 <= i <= |s| && In(s[..i], r) && Times(s[i..], r, n);
    a, b := s[..i], s[i..];
  }

  lemma {:induction false} DottedIn(s: string)
    ensures In(s, DOTTED) <==> H.Dotted(s)
  {
    DottedOut(s);
    if H.Dotted(s) {
      var a, b, c, d := DottedIsFour(s);
      FourIn(a, b, c, d);
    }
  }

  lemma {:induction false} DottedOut(s: string)
    ensures In(s, DOTTED) ==> H.Dotted(s)
  {
    if In(s, DOTTED) {
      var front, d := CatParts(s, Repeat(GROUP, 3, Some(3)), OCTET);
      ThreeTimes(front);
      ThreeGroups(front);
      var a, b, c :| Octet(a) && Octet(b) && Octet(c) && front == Three(a, b, c);
      AllDigits(d, Some(3));
      FourJoined(a, b, c, d);
      FourDotted(a, b, c, d);
    }
  }

  lemma {:induction false} FourDotted(a: string, b: string, c: string, d: string)
    requires Octet(a) && Octet(b) && Octet(c) && Octet(d)
    ensures H.Dotted(Four(a, b, c, d))
  {
    FourSplit(a, b, c, d);
    var ps := Split(Four(a, b, c, d), '.');
    assert ps[0] == a && ps[1] == b && ps[2] == c && ps[3] == d;
  }

  lemma {:induction false} ThreeTimes(s: string)
    ensures In(s, Repeat(GROUP, 3, Some(3))) <==> Times(s, GROUP, 3)
  {
  }

  lemma {:induction false} FourJoined(a: string, b: string, c: string, d: string)
    ensures Three(a, b, c) + d == Four(a, b, c, d)
  {
  }

  lemma {:induction false} ThreeGroups(front: string)
    ensures Times(front, GROUP, 3) ==>
      exists a, b, c :: Octet(a) && Octet(b) && Octet(c) && front == Three(a, b, c)
  {
    if Times(front, GROUP, 3) {
      var x, r1 := FirstTime(front, GROUP, 2);
      var a := GroupOctet(x);
      var y, r2 := FirstTime(r1, GROUP, 1);
      var b := GroupOctet(y);
      var c := LastGroup(r2);
      assert front == Three(a, b, c);
    }
  }

  lemma {:induction false} LastGroup(s: string) returns (c: string)
    requires Times(s, GROUP, 1)
    ensures Octet(c) && s == c + ['.']
  {
    var z, r3 := FirstTime(s, GROUP, 0);
    c := GroupOctet(z);
    assert r3 == [];
  }

  lemma {:induction false} GroupOctet(s: string) returns (a: string)
    requires In(s, GROUP)
    ensures Octet(a) && s == a + ['.']
  {
    GroupIn(s);
    a := s[..|s| - 1];
  }

  lemma {:induction false} FourIn(a: string, b: string, c: string, d: string)
    requires Octet(a) && Octet(b) && Octet(c) && Octet(d)
    ensures In(Four(a, b, c, d), DOTTED)
  {
    var front := Three(a, b, c);
    ThreeIn(a, b, c);
    ThreeTimes(front);
    AllDigits(d, Some(3));
    CatIn(front, d, Repeat(GROUP, 3, Some(3)), OCTET);
    FourJoined(a, b, c, d);
  }

  lemma {:induction false} ThreeIn(a: string, b: string, c: string)
    requires Octet(a) && Octet(b) && Octet(c)
    ensures Times(Three(a, b, c), GROUP, 3)
  {
    OctetGroup(a);
    OctetGroup(b);
    OctetGroup(c);
    assert c + ['.'] + [] == c + ['.'];
    OneMoreTime(c + ['.'], [], GROUP, 0);
    OneMoreTime(b + ['.'], c + ['.'], GROUP, 1);
    OneMoreTime(a + ['.'], b + ['.'] + (c + ['.']), GROUP, 2);
  }

  lemma {:induction false} OctetGroup(a: string)
    requires Octet(a)
    ensures In(a + ['.'], GROUP)
  {
    assert (a + ['.'])[..|a|] == a;
    GroupIn(a + ['.']);
  }

  // The whole expression.

  lemma {:induction false} AddressIn(s: string)
    ensures In(s, ADDRESS) <==> H.Address(s)
  {
    BracketsIn(s);
    DottedIn(s);
    NameIn(s);
  }

  lemma {:induction false} SuffixIn(s: string, r: Re)
    ensures In(s, Cat(Char(':'), r)) <==> s != [] && s[0] == ':' && In(s[1..], r)
  {
    if In(s, Cat(Char(':'), r)) {
      var a, b := CatParts(s, Char(':'), r);
      CharIn(a, ':');
      assert s[1..] == b;
    }
    if s != [] && s[0] == ':' && In(s[1..], r) {
      CharIn([':'], ':');
      CatIn([':'], s[1..], Char(':'), r);
      assert s == [':'] + s[1..];
    }
  }

  /** The suffix as an option: the text is that of the option, and its value is in the language. */
  lemma {:induction false} SuffixOption(s: string, r: Re) returns (o: Option<string>)
    requires In(s, Optional(Cat(Char(':'), r)))
    ensures s == H.Suffix(o) && (o.Some? ==> In(o.value, r))
  {
    OptionalIn(s, Cat(Char(':'), r));
    SuffixIn(s, r);
    if s == [] {
      o := None;
    } else {
      o := Some(s[1..]);
      assert s == [':'] + s[1..];
    }
  }

  lemma {:induction false} OptionSuffix(o: Option<string>, r: Re)
    requires o.Some? ==> In(o.value, r)
    ensures In(H.Suffix(o), Optional(Cat(Char(':'), r)))
  {
    OptionalIn(H.Suffix(o), Cat(Char(':'), r));
    SuffixIn(H.Suffix(o), r);
    if o.Some? { assert H.Suffix(o)[1..] == o.value; }
  }

  /** The regular expression matches exactly the strings that are made of an address and the two
      suffixes. */
  lemma {:induction false} RegexExact(s: string)
    ensures In(s, HOST) <==> exists p :: H.Matches(s, p)
  {
    RegexParts(s);
    forall p | H.Matches(s, p) ensures In(s, HOST) { PartsRegex(p); }
  }

  lemma {:induction false} RegexParts(s: string)
    ensures In(s, HOST) ==> exists p :: H.Matches(s, p)
  {
    if In(s, HOST) {
      var addr, rest := CatParts(s, ADDRESS, Cat(Optional(Cat(Char(':'), NAME)), Optional(Cat(Char(':'), PORT))));
      var x, y := CatParts(rest, Optional(Cat(Char(':'), NAME)), Optional(Cat(Char(':'), PORT)));
      var name := SuffixOption(x, NAME);
      var port := SuffixOption(y, PORT);
      AddressIn(addr);
      if name.Some? { NameIn(name.value); }
      if port.Some? { AllDigits(port.value, None); }
      Regroup(addr, x, y);
      assert H.Matches(s, H.Parts(addr, name, port));
    }
  }

  lemma {:induction false} PartsRegex(p: H.Parts)
    requires H.WellFormed(p)
    ensures In(H.Text(p), HOST)
  {
    AddressIn(p.addr);
    if p.name.Some? { NameIn(p.name.value); }
    if p.port.Some? { AllDigits(p.port.value, None); }
    OptionSuffix(p.name, NAME);
    OptionSuffix(p.port, PORT);
    CatIn(H.Suffix(p.name), H.Suffix(p.port), Optional(Cat(Char(':'), NAME)), Optional(Cat(Char(':'), PORT)));
    CatIn(p.addr, H.Suffix(p.name) + H.Suffix(p.port), ADDRESS,
          Cat(Optional(Cat(Char(':'), NAME)), Optional(Cat(Char(':'), PORT))));
    Regroup(p.addr, H.Suffix(p.name), H.Suffix(p.port));
  }

  /** A host string is parsed exactly when the regular expression matches it. */
  lemma {:induction false} ParsedIffMatched(s: string)
    ensures H.ParseHost(s).Done? <==> In(s, HOST)
  {
    RegexExact(s);
    if p :| H.Matches(s, p) { H.HostParts(s, p); }
    if H.ParseHost(s).Done? { H.MatchExact(s, H.Match(s).value); }
  }
}
