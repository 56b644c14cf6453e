/** The token array of an expression can be read back in exactly one way. */
module ExpCodec {
  import opened Prelude
  import opened ExpSyntax

  /** An operation without a policy token must not be followed by one. */
  predicate Clear(e: Expr, r: Code) { IsOperation(e) ==> !Closes(r) }

  /** The budget of a branch is its number of children plus `w` units. */
  function Plus(n: nat, w: Option<nat>): Option<nat> {
    if w.None? then None else Some(n + w.value)
  }

  function LeftOver(h: Head): Option<nat> {
    match h
    case Counted(_) => Some(0)
    case Variadic(_) => None
    case Operation(_, part) => Some(if part.Some? then part.value.weight else 0)
  }

  /** Decoding the array of a tree, whatever follows it, gives back the tree and what follows. */
  lemma {:induction false} RoundTrip(e: Expr, r: Code)
    requires Wf(e) && Clear(e, r)
    ensures Decode(Encode(e) + r) == Ok(e, r)
    decreases e
  {
    match e
    case Leaf(v) =>
      FirstAndRest(Lit(v), r);
    case Branch(h, kids) =>
      var t := Opening(h, |kids|);
      assert Encode(e) + r == [t] + (EncodeAll(kids) + (Closing(h) + r));
      FirstAndRest(t, EncodeAll(kids) + (Closing(h) + r));
      RoundTripKids(h, kids, Closing(h) + r);
      FinishBranch(h, kids, r);
  }

  lemma {:induction false} FirstAndRest(t: Token, ts: Code)
    ensures ([t] + ts)[0] == t && ([t] + ts)[1..] == ts
  {
  }

  lemma {:induction false} FinishBranch(h: Head, kids: seq<Expr>, r: Code)
    requires HeadOk(h) && (h.Operation? ==> !Closes(r))
    ensures Opens(Opening(h, |kids|)) && Budget(Opening(h, |kids|)) == Plus(|kids|, LeftOver(h))
    ensures Finish(Opening(h, |kids|), kids, LeftOver(h), Closing(h) + r) == Ok(Branch(h, kids), r)
  {
    match h
    case Counted(_) =>
      assert Closing(h) + r == r;
    case Variadic(_) =>
      FirstAndRest(EndVa, r);
    case Operation(_, part) =>
      if part.Some? {
        FirstAndRest(CrMod(part.value.cdt, part.value.policy), r);
      } else {
        assert Closing(h) + r == r;
      }
  }

  /** The first token of an expression never closes anything. */
  lemma {:induction false} StartsOpen(e: Expr, r: Code)
    ensures Encode(e) + r != [] && !Closes(Encode(e) + r)
  {
  }

  lemma {:induction false} ListStartsOpen(es: seq<Expr>, r: Code)
    requires es != []
    ensures !Closes(EncodeAll(es) + r)
  {
    assert EncodeAll(es) + r == Encode(es[0]) + (EncodeAll(es[1..]) + r);
    StartsOpen(es[0], EncodeAll(es[1..]) + r);
  }

  /** A list of children splits in only one way. */
  lemma {:induction false} RoundTripKids(h: Head, es: seq<Expr>, r: Code)
    requires OperationsPlaced(h, es) && forall e | e in es :: Wf(e)
    requires LeftOver(h) == Some(0) || Closes(r)
    ensures DecodeKids(Plus(|es|, LeftOver(h)), EncodeAll(es) + r) == Ok((es, LeftOver(h)), r)
    decreases es
  {
    if es == [] {
      assert EncodeAll(es) + r == r;
    } else {
      var tail := EncodeAll(es[1..]) + r;
      assert Decode(Encode(es[0]) + tail) == Ok(es[0], tail) by {
        if IsOperation(es[0]) {
          assert |es| > 1;
          ListStartsOpen(es[1..], r);
        }
        assert es[0] in es;
        RoundTrip(es[0], tail);
      }
      assert DecodeKids(Plus(|es| - 1, LeftOver(h)), tail) == Ok((es[1..], LeftOver(h)), r) by {
        assert OperationsPlaced(h, es[1..]);
        RoundTripKids(h, es[1..], r);
      }
      StartsOpen(es[0], tail);
      KidsStep(Plus(|es|, LeftOver(h)), Encode(es[0]) + tail, es[0], tail, es[1..], LeftOver(h), r);
      Unroll(es, r);
    }
  }

  lemma {:induction false} Unroll(es: seq<Expr>, r: Code)
    requires es != []
    ensures EncodeAll(es) + r == Encode(es[0]) + (EncodeAll(es[1..]) + r) && es == [es[0]] + es[1..]
  {
  }

  lemma {:induction false} KidsStep(b: Option<nat>, ts: Code, e: Expr, rest: Code, es: seq<Expr>,
                                    left: Option<nat>, r: Code)
    requires b != Some(0) && !Closes(ts)
    requires Decode(ts) == Ok(e, rest) && DecodeKids(Spend(b), rest) == Ok((es, left), r)
    ensures DecodeKids(b, ts) == Ok(([e] + es, left), r)
  {
  }

  // The decoder accepts nothing else.

  /** The array of whatever tree the decoder reads is exactly what it consumed. */
  lemma {:induction false} Sound(ts: Code)
    ensures var p := Decode(ts); p.Ok? ==> ts == Encode(p.value) + p.rest
    decreases |ts|, 0
  {
    if ts != [] {
      assert ts == [ts[0]] + ts[1..];
      if !ts[0].Lit? && Opens(ts[0]) {
        SoundKids(Budget(ts[0]), ts[1..]);
        var p := DecodeKids(Budget(ts[0]), ts[1..]);
        if p.Ok? {
          SoundFinish(ts[0], p.value.0, p.value.1, p.rest);
          SoundBranch(ts[0], p.value.0, Finish(ts[0], p.value.0, p.value.1, p.rest), ts[1..], p.rest);
        }
      }
    }
  }

  lemma {:induction false} SoundBranch(t: Token, kids: seq<Expr>, p: Parsed<Expr>, ts: Code, rest: Code)
    requires p.Ok? ==> p.value.Branch? && p.value.kids == kids && t == Opening(p.value.head, |kids|)
    requires ts == EncodeAll(kids) + rest && (p.Ok? ==> rest == Closing(p.value.head) + p.rest)
    ensures p.Ok? ==> [t] + ts == Encode(p.value) + p.rest
  {
    if p.Ok? {
      Regroup([t], EncodeAll(kids) + Closing(p.value.head), p.rest);
      Regroup(EncodeAll(kids), Closing(p.value.head), p.rest);
    }
  }

  lemma {:induction false} SoundFinish(t: Token, kids: seq<Expr>, left: Option<nat>, rest: Code)
    requires Opens(t) && Budget(t) == Plus(|kids|, left)
    ensures var p := Finish(t, kids, left, rest);
      p.Ok? ==> p.value.Branch? && p.value.kids == kids && HeadOk(p.value.head)
                && t == Opening(p.value.head, |kids|) && rest == Closing(p.value.head) + p.rest
  {
    if rest != [] { assert rest == [rest[0]] + rest[1..]; }
  }

  lemma {:induction false} SoundKids(b: Option<nat>, ts: Code)
    ensures var p := DecodeKids(b, ts);
      p.Ok? ==> ts == EncodeAll(p.value.0) + p.rest && b == Plus(|p.value.0|, p.value.1)
    decreases |ts|, 1
  {
    if b != Some(0) && !Closes(ts) {
      Sound(ts);
      var p := Decode(ts);
      if p.Ok? {
        SoundKids(Spend(b), p.rest);
        var q := DecodeKids(Spend(b), p.rest);
        if q.Ok? { Unroll([p.value] + q.value.0, q.rest); }
      }
    }
  }

  // Consequences.

  /** A complete expression. */
  predicate IsExpr(e: Expr) { Wf(e) && !IsOperation(e) }

  lemma {:induction false} PrefixFree(e1: Expr, e2: Expr, r1: Code, r2: Code)
    requires IsExpr(e1) && IsExpr(e2)
    requires Encode(e1) + r1 == Encode(e2) + r2
    ensures e1 == e2 && r1 == r2
  {
    RoundTrip(e1, r1);
    RoundTrip(e2, r2);
  }

  /** Different expressions have different arrays, and none is a proper prefix of another. */
  lemma {:induction false} Injective(e1: Expr, e2: Expr)
    requires IsExpr(e1) && IsExpr(e2)
    ensures Encode(e1) <= Encode(e2) <==> e1 == e2
  {
    if Encode(e1) <= Encode(e2) {
      var r := Encode(e2)[|Encode(e1)|..];
      assert Encode(e1) + r == Encode(e2) + [];
      PrefixFree(e1, e2, r, []);
    }
  }

  /** Variadic argument lists and operand lists split in only one way. */
  lemma {:induction false} ListsInjective(es1: seq<Expr>, es2: seq<Expr>)
    requires (forall e | e in es1 :: IsExpr(e)) && (forall e | e in es2 :: IsExpr(e))
    ensures EncodeAll(es1) == EncodeAll(es2) <==> es1 == es2
  {
    if EncodeAll(es1) == EncodeAll(es2) {
      var a, b := Branch(Variadic(And), es1), Branch(Variadic(And), es2);
      assert forall i | 0 <= i < |es1| :: es1[i] in es1;
      assert forall i | 0 <= i < |es2| :: es2[i] in es2;
      Injective(a, b);
    }
  }

  /** An array is one complete expression. */
  predicate Complete(ts: Code) {
    Decode(ts).Ok? && Decode(ts).rest == [] && IsExpr(Decode(ts).value)
  }

  function TreeOf(ts: Code): Expr
    requires Complete(ts)
  {
    Decode(ts).value
  }

  /** Complete arrays are exactly the encodings of expressions. */
  lemma {:induction false} CompleteIffEncoding(ts: Code)
    ensures Complete(ts) <==> exists e :: IsExpr(e) && Encode(e) == ts
    ensures Complete(ts) ==> Encode(TreeOf(ts)) == ts
  {
    Sound(ts);
    if Complete(ts) {
      assert Encode(TreeOf(ts)) + [] == Encode(TreeOf(ts));
    }
    forall e | IsExpr(e) && Encode(e) == ts ensures Complete(ts) {
      CompleteEncoding(e);
    }
  }

  lemma {:induction false} CompleteEncoding(e: Expr)
    requires IsExpr(e)
    ensures Complete(Encode(e)) && TreeOf(Encode(e)) == e
  {
    RoundTrip(e, []);
    assert Encode(e) + [] == Encode(e);
  }
}
