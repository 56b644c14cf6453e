/** Decimal text. */
module Decimals {

  predicate Digit(c: char) { '0' <= c <= '9' }

  predicate Digits(s: string) { s != [] && forall i | 0 <= i < |s| :: Digit(s[i]) }

  function Decimal(s: string): nat
    requires forall i | 0 <= i < |s| :: Digit(s[i])
  {
    if s == [] then 0 else
      assert Digit(s[|s| - 1]);
      Decimal(s[..|s| - 1]) * 10 + (s[|s| - 1] - '0') as nat
  }

  function Print(n: nat): (s: string)
    ensures Digits(s)
  {
    var last := ['0' + (n % 10) as char];
    if n < 10 then last else Print(n / 10) + last
  }

  lemma {:induction false} DecimalBack(n: nat)
    ensures Decimal(Print(n)) == n
  {
    var s := Print(n);
    if n >= 10 {
      DecimalBack(n / 10);
      assert s[..|s| - 1] == Print(n / 10);
    } else {
      assert s[..0] == [];
    }
  }

  /** Digits without a leading zero, or the digit zero. */
  predicate Canonical(s: string) { Digits(s) && (|s| > 1 ==> s[0] != '0') }

  lemma {:induction false} CanonicalPrint(n: nat)
    ensures Canonical(Print(n)) && (n > 0 ==> Print(n)[0] != '0')
  {
    if n >= 10 { CanonicalPrint(n / 10); }
  }

  lemma {:induction false} PrintCanonical(s: string)
    requires Canonical(s)
    ensures Print(Decimal(s)) == s && (s != "0" ==> Decimal(s) > 0)
  {
    var n := |s| - 1;
    var d := (s[n] - '0') as nat;
    assert Digit(s[n]);
    assert s[..n] + [s[n]] == s;
    if n == 0 {
      assert Decimal(s[..0]) == 0;
    } else {
      PrintCanonical(s[..n]);
      assert s[..n] != "0";
      var m := Decimal(s[..n]);
      assert (m * 10 + d) / 10 == m && (m * 10 + d) % 10 == d;
    }
  }

  // Integers as JavaScript prints them.

  /** Up to 2^53 all integers are exact. */
  const EXACT_LIMIT := 0x20_0000_0000_0000

  predicate Exact(n: int) { -(EXACT_LIMIT as int) <= n <= EXACT_LIMIT }

  function PrintInt(n: int): string { if n < 0 then ['-'] + Print(-n) else Print(n) }

  /** The text of an exact integer. */
  predicate IsInt(s: string) {
    if s != [] && s[0] == '-' then Canonical(s[1..]) && s[1..] != "0" && Decimal(s[1..]) <= EXACT_LIMIT
    else Canonical(s) && Decimal(s) <= EXACT_LIMIT
  }

  function ReadInt(s: string): int
    requires IsInt(s)
  {
    if s[0] == '-' then -(Decimal(s[1..]) as int) else Decimal(s)
  }

  /** The text of an integer is a canonical text, and gives back the integer. */
  lemma {:induction false} IntBack(n: int)
    requires Exact(n)
    ensures IsInt(PrintInt(n)) && ReadInt(PrintInt(n)) == n
  {
    var m: nat := if n < 0 then -n else n;
    DecimalBack(m);
    CanonicalPrint(m);
    var s := PrintInt(n);
    if n < 0 {
      assert s[1..] == Print(m);
    } else {
      assert Digit(s[0]);
    }
  }

  /** The canonical texts are exactly the texts of exact integers. */
  lemma {:induction false} IntExact(s: string)
    ensures IsInt(s) <==> exists n: int :: Exact(n) && PrintInt(n) == s
    ensures forall n: int :: Exact(n) <==> -9_007_199_254_740_992 <= n <= 9_007_199_254_740_992
  {
    if IsInt(s) {
      var n := ReadInt(s);
      if s[0] == '-' {
        PrintCanonical(s[1..]);
        assert ['-'] + s[1..] == s;
      } else {
        PrintCanonical(s);
      }
      assert Exact(n) && PrintInt(n) == s;
    }
    forall n: int | Exact(n) && PrintInt(n) == s ensures IsInt(s) {
      IntBack(n);
    }
  }

  lemma {:induction false} IntChars(s: string, i: nat)
    requires IsInt(s) && i < |s|
    ensures Digit(s[i]) || s[i] == '-'
  {
    if s[0] == '-' && i > 0 { assert s[1..][i - 1] == s[i]; }
  }
}
