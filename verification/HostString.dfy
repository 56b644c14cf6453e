/** `parseHostString` of lib/utils.js: address, optional TLS name and optional port. */
module HostString {
  import opened Prelude
  import opened InfoText
  import opened D = Decimals

  datatype Host = Host(addr: string, tlsname: Option<string>, port: nat)

  // The three forms of an address and the two suffixes, as the regular expression names them.

  predicate Letter(c: char) { 'a' <= c <= 'z' || 'A' <= c <= 'Z' }
  predicate HexColon(c: char) { Digit(c) || 'a' <= c <= 'f' || 'A' <= c <= 'F' || c == ':' }
  predicate NameChar(c: char) { Letter(c) || Digit(c) || c == '-' || c == '.' }

  predicate Name(s: string) { |s| > 1 && Letter(s[0]) && forall i | 1 <= i < |s| :: NameChar(s[i]) }
  predicate Hex(s: string) { s != [] && forall i | 0 <= i < |s| :: HexColon(s[i]) }
  predicate Bracketed(s: string) { |s| > 2 && s[0] == '[' && s[|s| - 1] == ']' && Hex(s[1..|s| - 1]) }

  predicate Dotted(s: string) {
    var ps := Split(s, '.');
    |ps| == 4 && forall i | 0 <= i < 4 :: Digits(ps[i]) && |ps[i]| <= 3
  }

  predicate Address(s: string) { Bracketed(s) || Dotted(s) || Name(s) }

  datatype Parts = Parts(addr: string, name: Option<string>, port: Option<string>)

  function Suffix(s: Option<string>): string { if s.Some? then [':'] + s.value else [] }

  function Text(p: Parts): string { p.addr + Suffix(p.name) + Suffix(p.port) }

  predicate WellFormed(p: Parts) {
    Address(p.addr) && (p.name.Some? ==> Name(p.name.value)) && (p.port.Some? ==> Digits(p.port.value))
  }

  /** A string matches the regular expression with these groups. */
  predicate Matches(s: string, p: Parts) { WellFormed(p) && s == Text(p) }

  // A matcher that looks at each character once.

  function IndexOf(s: string, c: char): (k: nat)
    ensures k <= |s| && c !in s[..k] && (k < |s| ==> s[k] == c)
  {
    if s == [] || s[0] == c then 0 else
      var k := IndexOf(s[1..], c);
      assert s[..k + 1] == [s[0]] + s[1..][..k];
      k + 1
  }

  function Cut(s: string): (k: nat)
    ensures k <= |s|
  {
    if s != [] && s[0] == '[' then (if IndexOf(s, ']') < |s| then IndexOf(s, ']') + 1 else |s|)
    else IndexOf(s, ':')
  }

  function MatchSuffixes(addr: string, s: string): (r: Option<Parts>)
    ensures r.Some? && Address(addr) ==> WellFormed(r.value)
  {
    if s == [] then Some(Parts(addr, None, None))
    else if s[0] != ':' then None
    else
      var rest := s[1..];
      var k := IndexOf(rest, ':');
      if k < |rest| then
        if Name(rest[..k]) && Digits(rest[k + 1..]) then
          Some(Parts(addr, Some(rest[..k]), Some(rest[k + 1..])))
        else None
      else if Name(rest) then Some(Parts(addr, Some(rest), None))
      else if Digits(rest) then Some(Parts(addr, None, Some(rest)))
      else None
  }

  function Match(s: string): (r: Option<Parts>)
    ensures r.Some? ==> WellFormed(r.value)
  {
    var k := Cut(s);
    if Address(s[..k]) then MatchSuffixes(s[..k], s[k..]) else None
  }

  const DEFAULT_PORT: nat := 3000

  function Unbracket(addr: string): string {
    if |addr| > 1 && addr[0] == '[' && addr[|addr| - 1] == ']' then addr[1..|addr| - 1] else addr
  }

  function HostOf(p: Parts): Host
    requires WellFormed(p)
  {
    Host(Unbracket(p.addr), p.name, if p.port.Some? then Decimal(p.port.value) else DEFAULT_PORT)
  }

  /** The error stands for the exception about an invalid host address. */
  function ParseHost(s: string): Result<Host> {
    match Match(s)
    case Some(p) => Done(HostOf(p))
    case None => TypeErr
  }

  // No string can be read in two ways.

  lemma {:induction false} AtIndex(a: string, c: char, b: string)
    requires c !in a
    ensures IndexOf(a + [c] + b, c) == |a| && IndexOf(a, c) == |a|
  {
    var s := a + [c] + b;
    assert s[|a|] == c;
    assert forall i | 0 <= i < |a| :: s[i] == a[i];
    assert forall i | 0 <= i < IndexOf(s, c) :: s[i] == s[..IndexOf(s, c)][i];
  }

  lemma {:induction false} DottedChars(s: string)
    requires Dotted(s)
    ensures s != [] && Digit(s[0]) && ':' !in s && '[' !in s
  {
    var ps := Split(s, '.');
    JoinSplit(s, '.');
    var s3 := ps[2] + ['.'] + ps[3];
    assert ps[1..][1..][1..] == [ps[3]];
    assert Join(ps[1..][1..], '.') == s3;
    assert Join(ps[1..], '.') == ps[1] + ['.'] + s3;
    assert s == ps[0] + ['.'] + (ps[1] + ['.'] + s3);
    forall i | 0 <= i < 4 ensures ':' !in ps[i] && '[' !in ps[i] {
      assert Digits(ps[i]);
    }
    assert ps[0][0] == s[0] && Digits(ps[0]);
  }

  /** The first character tells the three forms of an address apart, and only the first form has
      colons. */
  lemma {:induction false} FormsDisjoint(s: string)
    requires Address(s)
    ensures s != []
    ensures Bracketed(s) <==> s[0] == '['
    ensures Dotted(s) <==> Digit(s[0])
    ensures Name(s) <==> Letter(s[0])
    ensures ':' in s ==> Bracketed(s)
  {
    if Dotted(s) { DottedChars(s); }
  }

  lemma {:induction false} CutBracketed(a: string, rest: string)
    requires Bracketed(a)
    ensures Cut(a + rest) == |a|
  {
    var n := |a| - 1;
    assert forall i | 1 <= i < n :: a[i] == a[1..n][i - 1];
    AtIndex(a[..n], ']', rest);
    assert a + rest == a[..n] + [']'] + rest;
  }

  lemma {:induction false} CutPlain(a: string, rest: string)
    requires a != [] && a[0] != '[' && ':' !in a && (rest != [] ==> rest[0] == ':')
    ensures Cut(a + rest) == |a|
  {
    if rest == [] {
      assert a + rest == a;
      AtIndex(a, ':', []);
    } else {
      AtIndex(a, ':', rest[1..]);
      assert a + rest == a + [':'] + rest[1..];
    }
  }

  lemma {:induction false} NoColon(s: string)
    requires Name(s) || Digits(s)
    ensures IndexOf(s, ':') == |s| && forall rest :: IndexOf(s + [':'] + rest, ':') == |s|
    ensures !(Name(s) && Digits(s))
  {
    assert ':' !in s;
    AtIndex(s, ':', []);
    forall rest ensures IndexOf(s + [':'] + rest, ':') == |s| { AtIndex(s, ':', rest); }
  }

  lemma {:induction false} OneSuffix(addr: string, x: string)
    requires Name(x) || Digits(x)
    ensures MatchSuffixes(addr, [':'] + x)
         == Some(if Name(x) then Parts(addr, Some(x), None) else Parts(addr, None, Some(x)))
  {
    NoColon(x);
    assert ([':'] + x)[1..] == x;
  }

  lemma {:induction false} TwoSuffixes(addr: string, name: string, port: string)
    requires Name(name) && Digits(port)
    ensures MatchSuffixes(addr, [':'] + name + ([':'] + port)) == Some(Parts(addr, Some(name), Some(port)))
  {
    var s, rest := [':'] + name + ([':'] + port), name + [':'] + port;
    NoColon(name);
    assert s[1..] == rest && s[0] == ':';
    assert rest[..|name|] == name && rest[|name| + 1..] == port;
  }

  lemma {:induction false} SuffixesBack(p: Parts)
    requires WellFormed(p)
    ensures MatchSuffixes(p.addr, Suffix(p.name) + Suffix(p.port)) == Some(p)
  {
    if p.name.Some? && p.port.Some? {
      TwoSuffixes(p.addr, p.name.value, p.port.value);
    } else if p.name.Some? {
      OneSuffix(p.addr, p.name.value);
      assert Suffix(p.name) + [] == Suffix(p.name);
    } else if p.port.Some? {
      NoColon(p.port.value);
      OneSuffix(p.addr, p.port.value);
      assert [] + Suffix(p.port) == Suffix(p.port);
    }
  }

  lemma {:induction false} MatchComplete(p: Parts)
    requires WellFormed(p)
    ensures Match(Text(p)) == Some(p)
  {
    var rest := Suffix(p.name) + Suffix(p.port);
    TextOf(p.addr, Suffix(p.name), Suffix(p.port), rest);
    MatchAfter(p.addr, rest);
    SuffixesBack(p);
  }

  lemma {:induction false} MatchAfter(addr: string, rest: string)
    requires Address(addr) && (rest != [] ==> rest[0] == ':')
    ensures Match(addr + rest) == MatchSuffixes(addr, rest)
  {
    CutAddress(addr, rest);
  }

  lemma {:induction false} CutAddress(a: string, rest: string)
    requires Address(a) && (rest != [] ==> rest[0] == ':')
    ensures Cut(a + rest) == |a| && (a + rest)[..|a|] == a && (a + rest)[|a|..] == rest
  {
    FormsDisjoint(a);
    if Bracketed(a) { CutBracketed(a, rest); } else { CutPlain(a, rest); }
  }

  /** The matcher finds the groups of the regular expression, and only those. */
  lemma {:induction false} MatchExact(s: string, p: Parts)
    ensures Match(s) == Some(p) <==> Matches(s, p)
  {
    if Matches(s, p) {
      MatchComplete(p);
    }
    if Match(s) == Some(p) {
      SuffixesSound(s[..Cut(s)], s[Cut(s)..], p);
      assert s == s[..Cut(s)] + s[Cut(s)..];
    }
  }

  lemma {:induction false} SuffixesSound(addr: string, s: string, p: Parts)
    requires Address(addr) && MatchSuffixes(addr, s) == Some(p)
    ensures WellFormed(p) && p.addr == addr && Text(p) == addr + s
  {
    if s == [] {
      assert addr + [] + [] == addr + s;
    } else {
      var rest := s[1..];
      var k := IndexOf(rest, ':');
      assert s == [':'] + rest;
      if k < |rest| {
        assert rest == rest[..k] + ([':'] + rest[k + 1..]);
        TextOf(addr, [':'] + rest[..k], [':'] + rest[k + 1..], s);
      } else {
        TextOf(addr, [':'] + rest, [], s);
        TextOf(addr, [], [':'] + rest, s);
      }
    }
  }

  lemma {:induction false} TextOf(addr: string, a: string, b: string, s: string)
    requires a + b == s
    ensures addr + a + b == addr + s
  {
  }

  /** There is at most one way to read a string. */
  lemma {:induction false} Unambiguous(s: string, p: Parts, q: Parts)
    requires Matches(s, p) && Matches(s, q)
    ensures p == q
  {
    MatchExact(s, p);
    MatchExact(s, q);
  }

  /** A host is parsed exactly when the string matches, and then it is the host of the groups. */
  lemma {:induction false} ParseExact(s: string, h: Host)
    ensures ParseHost(s) == Done(h) <==> exists p :: Matches(s, p) && HostOf(p) == h
  {
    if p :| Matches(s, p) && HostOf(p) == h {
      MatchExact(s, p);
    }
    if ParseHost(s) == Done(h) {
      MatchExact(s, Match(s).value);
    }
  }

  /** Without a port in the string the port is 3000; the brackets of an address are taken off. */
  lemma {:induction false} HostParts(s: string, p: Parts)
    requires Matches(s, p)
    ensures ParseHost(s).Done?
    ensures var h := ParseHost(s).value;
      && h.tlsname == p.name
      && (p.port.None? ==> h.port == 3000) && (p.port.Some? ==> h.port == D.Decimal(p.port.value))
      && p.addr == if p.addr[0] == '[' then ['['] + h.addr + [']'] else h.addr
  {
    MatchExact(s, p);
    BracketsOff(p.addr);
  }

  lemma {:induction false} BracketsOff(a: string)
    requires Address(a)
    ensures a != [] && a == if a[0] == '[' then ['['] + Unbracket(a) + [']'] else Unbracket(a)
  {
    FormsDisjoint(a);
    if a[0] == '[' { assert a == ['['] + a[1..|a| - 1] + [']']; }
  }

  // Printing.

  /** The parts of a host; the default port may be left out. */
  function PartsOf(h: Host, short: bool): Parts {
    Parts(if Dotted(h.addr) || Name(h.addr) then h.addr else ['['] + h.addr + [']'],
          h.tlsname,
          if short && h.port == DEFAULT_PORT then None else Some(D.Print(h.port)))
  }

  function Print(h: Host, short: bool): string { Text(PartsOf(h, short)) }

  predicate ValidHost(h: Host) {
    (Hex(h.addr) || Dotted(h.addr) || Name(h.addr)) && (h.tlsname.Some? ==> Name(h.tlsname.value))
  }

  lemma {:induction false} PartsBack(h: Host, short: bool)
    requires ValidHost(h)
    ensures WellFormed(PartsOf(h, short)) && HostOf(PartsOf(h, short)) == h
  {
    var b := ['['] + h.addr + [']'];
    assert b[1..|b| - 1] == h.addr;
    DecimalBack(h.port);
    if Dotted(h.addr) { DottedChars(h.addr); }
  }

  /** Only valid hosts come out of the parser. */
  lemma {:induction false} OnlyValid(s: string)
    requires ParseHost(s).Done?
    ensures ValidHost(ParseHost(s).value)
  {
    var p := Match(s).value;
    MatchExact(s, p);
    FormsDisjoint(p.addr);
  }

  /** Exactly the valid hosts come back from their printed form, and an address with colons is
      printed in brackets. */
  lemma {:induction false} HostRoundTrip(h: Host, short: bool)
    ensures ParseHost(Print(h, short)) == Done(h) <==> ValidHost(h)
    ensures ValidHost(h) && ':' in h.addr ==> PartsOf(h, short).addr == ['['] + h.addr + [']']
  {
    if ValidHost(h) {
      PartsBack(h, short);
      MatchExact(Print(h, short), PartsOf(h, short));
      if Dotted(h.addr) { DottedChars(h.addr); }
    } else if ParseHost(Print(h, short)) == Done(h) {
      OnlyValid(Print(h, short));
    }
  }
}
