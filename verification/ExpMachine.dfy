/** One left-to-right pass over the flat array, with a stack of open headers, computes the
    meaning of the tree, for every interpretation of the operators. */
module ExpMachine {
  import opened Prelude
  import opened ExpSyntax
  import opened ExpCodec

  /** An interpretation of literals and operators over any domain. */
  datatype Interp<!V> = Interp(
    leaf: Literal -> V,
    node: (CountedOp, seq<V>) -> V,
    va: (VariadicOp, seq<V>) -> V,
    operation: (Option<Context>, seq<V>, Option<Policy>) -> V)

  // The meaning of a tree: fold the interpretation over it.

  function Apply<V>(i: Interp<V>, h: Head, vs: seq<V>): V {
    match h
    case Counted(op) => i.node(op, vs)
    case Variadic(op) => i.va(op, vs)
    case Operation(ctx, part) => i.operation(ctx, vs, if part.Some? then part.value.policy else None)
  }

  function Eval<V>(i: Interp<V>, e: Expr): V
    decreases e
  {
    match e
    case Leaf(v) => i.leaf(v)
    case Branch(h, kids) => Apply(i, h, EvalAll(i, kids))
  }

  function EvalAll<V>(i: Interp<V>, es: seq<Expr>): (vs: seq<V>)
    ensures |vs| == |es|
    decreases es
  {
    if es == [] then [] else [Eval(i, es[0])] + EvalAll(i, es[1..])
  }

  // The meaning of an array: a stack machine that looks at each token once.

  /** An open header, the units it still waits for, and the values it has received. */
  datatype Frame<V> = Frame(header: Token, budget: Option<nat>, got: seq<V>)
  datatype Machine<V> = Stuck | Bottom(out: seq<V>) | Push(frame: Frame<V>, below: Machine<V>)

  function Reduce<V>(i: Interp<V>, t: Token, vs: seq<V>, policy: Option<Policy>): V
    requires Opens(t)
  {
    match t
    case Header(op, _) => i.node(op, vs)
    case VaHeader(op) => i.va(op, vs)
    case VopStart(_, ctx) => i.operation(ctx, vs, policy)
  }

  /** Hands a finished value to the innermost open header, closing those that become full. */
  function Deliver<V>(i: Interp<V>, m: Machine<V>, v: V): Machine<V>
    decreases m
  {
    match m
    case Stuck => Stuck
    case Bottom(out) => Bottom(out + [v])
    case Push(f, below) =>
      if !Opens(f.header) || f.budget == Some(0) then Stuck
      else if f.budget == Some(1) then Deliver(i, below, Reduce(i, f.header, f.got + [v], None))
      else Push(Frame(f.header, Spend(f.budget), f.got + [v]), below)
  }

  function Step<V>(i: Interp<V>, m: Machine<V>, t: Token): Machine<V> {
    match t
    case Lit(v) => Deliver(i, m, i.leaf(v))
    case EndVa =>
      if m.Push? && m.frame.header.VaHeader?
      then Deliver(i, m.below, Reduce(i, m.frame.header, m.frame.got, None)) else Stuck
    case CrMod(_, policy) =>
      if policy.None? then m
      else if m.Push? && m.frame.header.VopStart?
      then Deliver(i, m.below, Reduce(i, m.frame.header, m.frame.got, policy)) else Stuck
    case _ => if Opens(t) then Enter(i, t, Budget(t), [], m) else Stuck
  }

  /** A header that waits for nothing more is reduced at once. */
  function Enter<V>(i: Interp<V>, t: Token, b: Option<nat>, got: seq<V>, below: Machine<V>): Machine<V>
    requires Opens(t)
  {
    if b == Some(0) then Deliver(i, below, Reduce(i, t, got, None)) else Push(Frame(t, b, got), below)
  }

  function Run<V>(i: Interp<V>, m: Machine<V>, ts: Code): Machine<V>
    decreases |ts|
  {
    if ts == [] then m else Run(i, Step(i, m, ts[0]), ts[1..])
  }

  function Execute<V>(i: Interp<V>, ts: Code): Option<V> {
    var m := Run(i, Bottom([]), ts);
    if m.Bottom? && |m.out| == 1 then Some(m.out[0]) else None
  }

  // The two meanings agree.

  lemma {:induction false} RunCons<V>(i: Interp<V>, m: Machine<V>, t: Token, ts: Code)
    ensures Run(i, m, [t] + ts) == Run(i, Step(i, m, t), ts)
  {
    FirstAndRest(t, ts);
  }

  /** Running over one expression, in any machine state, hands its value to that state. */
  lemma {:induction false} RunExpr<V>(i: Interp<V>, e: Expr, m: Machine<V>, r: Code)
    requires Wf(e)
    ensures Run(i, m, Encode(e) + r) == Run(i, Deliver(i, m, Eval(i, e)), r)
    decreases e
  {
    match e
    case Leaf(v) =>
      RunCons(i, m, Lit(v), r);
    case Branch(h, kids) =>
      var t := Opening(h, |kids|);
      var vs := EvalAll(i, kids);
      var rest := Closing(h) + r;
      assert Encode(e) + r == [t] + (EncodeAll(kids) + rest);
      RunCons(i, m, t, EncodeAll(kids) + rest);
      RunKids(i, t, Budget(t), [], m, kids, rest);
      assert [] + vs == vs;
      RunClosing(i, h, |kids|, vs, m, r);
  }

  lemma {:induction false} RunClosing<V>(i: Interp<V>, h: Head, n: nat, vs: seq<V>, m: Machine<V>, r: Code)
    requires HeadOk(h)
    ensures Run(i, Enter(i, Opening(h, n), LeftOver(h), vs, m), Closing(h) + r)
            == Run(i, Deliver(i, m, Apply(i, h, vs)), r)
  {
    if Closing(h) == [] {
      assert Closing(h) + r == r;
    } else {
      RunCons(i, Enter(i, Opening(h, n), LeftOver(h), vs, m), Closing(h)[0], r);
      assert Closing(h) == [Closing(h)[0]];
    }
  }

  lemma {:induction false} RunKids<V>(i: Interp<V>, t: Token, b: Option<nat>, got: seq<V>, m: Machine<V>,
                                      es: seq<Expr>, r: Code)
    requires Opens(t) && (b.Some? ==> b.value >= |es|)
    requires forall e | e in es :: Wf(e)
    ensures Run(i, Enter(i, t, b, got, m), EncodeAll(es) + r)
            == Run(i, Enter(i, t, Less(b, |es|), got + EvalAll(i, es), m), r)
    decreases es
  {
    if es == [] {
      assert EncodeAll(es) + r == r && got + EvalAll(i, es) == got;
    } else {
      var tail := EncodeAll(es[1..]) + r;
      var v := Eval(i, es[0]);
      var all := Encode(es[0]) + tail;
      var next := Enter(i, t, Less(b, 1), got + [v], m);
      assert Run(i, Enter(i, t, b, got, m), all) == Run(i, next, tail) by {
        RunExpr(i, es[0], Enter(i, t, b, got, m), tail);
        DeliverOne(i, t, b, got, m, v);
      }
      assert Run(i, next, tail)
          == Run(i, Enter(i, t, Less(Less(b, 1), |es| - 1), got + [v] + EvalAll(i, es[1..]), m), r) by {
        RunKids(i, t, Less(b, 1), got + [v], m, es[1..], r);
      }
      Regroup(Encode(es[0]), EncodeAll(es[1..]), r);
      Regroup(got, [v], EvalAll(i, es[1..]));
    }
  }

  lemma {:induction false} DeliverOne<V>(i: Interp<V>, t: Token, b: Option<nat>, got: seq<V>, m: Machine<V>, v: V)
    requires Opens(t) && b != Some(0)
    ensures Deliver(i, Enter(i, t, b, got, m), v) == Enter(i, t, Less(b, 1), got + [v], m)
  {
  }

  function Less(b: Option<nat>, n: nat): Option<nat>
    requires b.Some? ==> b.value >= n
  {
    if b.None? then None else Some(b.value - n)
  }

  /** Meaning preservation. */
  lemma {:induction false} MeaningPreserved<V>(i: Interp<V>, e: Expr)
    requires IsExpr(e)
    ensures Execute(i, Encode(e)) == Some(Eval(i, e))
  {
    RunExpr(i, e, Bottom([]), []);
    assert Encode(e) + [] == Encode(e);
  }

  /** The machine computes the meaning of every complete array, however it was built. */
  lemma {:induction false} CompleteArraysEvaluate<V>(i: Interp<V>, ts: Code)
    requires Complete(ts)
    ensures Execute(i, ts) == Some(Eval(i, TreeOf(ts)))
  {
    CompleteIffEncoding(ts);
    MeaningPreserved(i, TreeOf(ts));
  }
}
