/** The builders of lib/exp.js, as functions on token arrays, and the trees they denote. */
module ExpBuilders {
  import opened Prelude
  import opened ExpSyntax
  import opened ExpCodec
  import M = ExpMachine

  /** Array spreads and `concat`. */
  function Flatten(codes: seq<Code>): Code {
    if codes == [] then [] else codes[0] + Flatten(codes[1..])
  }

  function ValueExp(v: Literal): Code { [Lit(v)] }

  function KeyTypeExp(t: ExpType): Code { [Header(Key, 2)] + ValueExp(Int(TypeCode(t))) }

  function BinTypeExp(t: ExpType, name: string): Code {
    [Header(Bin, 3)] + ValueExp(Int(TypeCode(t))) + ValueExp(RawStr(name))
  }

  function BinTypeOf(name: string): Code { [Header(BinType, 2)] + ValueExp(RawStr(name)) }

  function MetaExp(op: CountedOp): Code { [Header(op, 1)] }

  /** src/main/enums/exp_enum.cc maps IS_TOMBSTONE to the code of NOT. */
  function IsTombstone(): Code { MetaExp(Not) }

  function CmpExp(op: CountedOp, left: Code, right: Code): Code { [Header(op, 3)] + left + right }

  function BinExists(name: string): Code { CmpExp(CmpNe, BinTypeOf(name), ValueExp(Int(Num(0)))) }

  function CmpRegexExp(options: int, regex: string, str: Code): Code {
    [Header(CmpRegex, 4)] + ValueExp(Int(Num(options))) + ValueExp(RawStr(regex)) + str
  }

  function NotExp(e: Code): Code { [Header(Not, 2)] + e }

  function VaExp(op: VariadicOp, es: seq<Code>): Code { [VaHeader(op)] + Flatten(es) + [EndVa] }

  function DefExp(name: string, e: Code): Code { ValueExp(RawStr(name)) + e }

  function VarExp(name: string): Code { [Header(Var, 2)] + ValueExp(RawStr(name)) }

  function LetExp(defs: seq<(string, Code)>, body: Code): Code {
    VaExp(Let, seq(|defs|, i requires 0 <= i < |defs| => DefExp(defs[i].0, defs[i].1)) + [body])
  }

  /** `_paramsExp` called with the tokens of its arguments spread: it counts tokens. */
  function ParamsExp(op: CountedOp, params: Code): Code { [Header(op, |params| + 1)] + params }

  predicate AllComplete(codes: seq<Code>) { forall i | 0 <= i < |codes| :: Complete(codes[i]) }

  predicate AllExpr(es: seq<Expr>) { forall i | 0 <= i < |es| :: IsExpr(es[i]) }

  function Trees(codes: seq<Code>): (es: seq<Expr>)
    requires AllComplete(codes)
    ensures |es| == |codes| && AllExpr(es)
  {
    seq(|codes|, i requires 0 <= i < |codes| => TreeOf(codes[i]))
  }

  lemma {:induction false} BranchIsExpr(h: Head, es: seq<Expr>)
    requires AllExpr(es) && HeadOk(h)
    ensures OperationsPlaced(h, es) && (forall e | e in es :: Wf(e)) && Wf(Branch(h, es))
  {
  }

  lemma {:induction false} FlattenTrees(codes: seq<Code>)
    requires AllComplete(codes)
    ensures Flatten(codes) == EncodeAll(Trees(codes))
  {
    if codes != [] {
      CompleteIffEncoding(codes[0]);
      FlattenTrees(codes[1..]);
      assert Trees(codes)[1..] == Trees(codes[1..]);
    }
  }

  /** Reading a list of complete expressions, then going on with the budget that is left. */
  lemma {:induction false} KidsThen(es: seq<Expr>, b: nat, r: Code)
    requires AllExpr(es) && b >= |es|
    ensures DecodeKids(Some(b), EncodeAll(es) + r) == Prepend(es, DecodeKids(Some(b - |es|), r))
    decreases es
  {
    if es == [] {
      assert EncodeAll(es) + r == r;
      PrependNone(DecodeKids(Some(b), r));
    } else {
      var tail := EncodeAll(es[1..]) + r;
      var q := DecodeKids(Some(b - |es|), r);
      assert DecodeKids(Some(b - 1), tail) == Prepend(es[1..], q) by { KidsThen(es[1..], b - 1, r); }
      assert Decode(Encode(es[0]) + tail) == Ok(es[0], tail) by { RoundTrip(es[0], tail); }
      StartsOpen(es[0], tail);
      OneKid(Some(b), Encode(es[0]) + tail, es[0], tail);
      PrependOne(es, q);
      Regroup(Encode(es[0]), EncodeAll(es[1..]), r);
    }
  }

  type Kids = Parsed<(seq<Expr>, Option<nat>)>

  function Prepend(es: seq<Expr>, p: Kids): Kids {
    if p.Fail? then Fail else Ok((es + p.value.0, p.value.1), p.rest)
  }

  lemma {:induction false} OneKid(b: Option<nat>, ts: Code, e: Expr, rest: Code)
    requires b != Some(0) && !Closes(ts) && Decode(ts) == Ok(e, rest)
    ensures DecodeKids(b, ts) == Prepend([e], DecodeKids(Spend(b), rest))
  {
  }

  lemma {:induction false} DecodeOpened(t: Token, ts: Code, p: Kids)
    requires Opens(t) && DecodeKids(Budget(t), ts) == p
    ensures Decode([t] + ts) == if p.Fail? then Fail else Finish(t, p.value.0, p.value.1, p.rest)
  {
    FirstAndRest(t, ts);
  }

  lemma {:induction false} PrependNone(p: Kids)
    ensures Prepend([], p) == p
  {
    if p.Ok? { assert [] + p.value.0 == p.value.0; }
  }

  lemma {:induction false} PrependOne(es: seq<Expr>, p: Kids)
    requires es != []
    ensures Prepend([es[0]], Prepend(es[1..], p)) == Prepend(es, p)
  {
    if p.Ok? { assert [es[0]] + (es[1..] + p.value.0) == es + p.value.0; }
  }

  lemma {:induction false} EncodeAllSplit(es: seq<Expr>, n: nat)
    requires n <= |es|
    ensures EncodeAll(es) == EncodeAll(es[..n]) + EncodeAll(es[n..])
  {
    if n == 0 {
      assert es[0..] == es;
    } else {
      EncodeAllSplit(es[1..], n - 1);
      assert es[..n][1..] == es[1..][..n - 1] && es[1..][n - 1..] == es[n..];
      Regroup(Encode(es[0]), EncodeAll(es[..n][1..]), EncodeAll(es[n..]));
    }
  }

  /** With too small a count the header takes the first children only; with too large a count
      there is no expression. */
  lemma {:induction false} DecodeCounted(op: CountedOp, count: nat, es: seq<Expr>)
    requires AllExpr(es) && count > 0
    ensures var p := Decode([Header(op, count)] + EncodeAll(es));
      if count - 1 <= |es|
      then p == Ok(Branch(Counted(op), es[..count - 1]), EncodeAll(es[count - 1..]))
      else p.Fail?
  {
    if count - 1 <= |es| {
      var a, b := es[..count - 1], EncodeAll(es[count - 1..]);
      EncodeAllSplit(es, count - 1);
      KidsThen(a, count - 1, b);
      assert a + [] == a;
      DecodeOpened(Header(op, count), EncodeAll(es), Ok((a, Some(0)), b));
    } else {
      assert EncodeAll(es) + [] == EncodeAll(es);
      KidsThen(es, count - 1, []);
      DecodeOpened(Header(op, count), EncodeAll(es), Fail);
    }
  }

  /** A counted header followed by the codes of its children is one complete expression exactly
      when the count is one more than the number of children. */
  lemma {:induction false} CountedClosed(op: CountedOp, count: nat, codes: seq<Code>)
    requires AllComplete(codes) && count > 0
    ensures Complete([Header(op, count)] + Flatten(codes)) <==> count == |codes| + 1
    ensures count == |codes| + 1 ==>
      TreeOf([Header(op, count)] + Flatten(codes)) == Branch(Counted(op), Trees(codes))
  {
    var es := Trees(codes);
    FlattenTrees(codes);
    DecodeCounted(op, count, es);
    if count - 1 < |es| {
      StartsOpen(es[count - 1], EncodeAll(es[count - 1..][1..]));
    } else if count - 1 == |es| {
      assert es[..count - 1] == es && es[count - 1..] == [];
      BranchIsExpr(Counted(op), es);
    }
  }

  /** A variadic header, the codes of its arguments and the end marker are one expression. */
  lemma {:induction false} VariadicClosed(op: VariadicOp, codes: seq<Code>)
    requires AllComplete(codes)
    ensures Complete(VaExp(op, codes)) && TreeOf(VaExp(op, codes)) == Branch(Variadic(op), Trees(codes))
  {
    FlattenTrees(codes);
    BranchIsExpr(Variadic(op), Trees(codes));
    CompleteEncoding(Branch(Variadic(op), Trees(codes)));
    Regroup([VaHeader(op)], Flatten(codes), [EndVa]);
  }

  lemma {:induction false} Literals(v: Literal)
    ensures Complete(ValueExp(v)) && TreeOf(ValueExp(v)) == Leaf(v)
  {
    CompleteEncoding(Leaf(v));
  }

  lemma FlattenFew(a: Code, b: Code, c: Code)
    ensures Flatten([]) == [] && Flatten([a]) == a && Flatten([a, b]) == a + b
    ensures Flatten([a, b, c]) == a + b + c
  {
    assert [a, b, c][1..] == [b, c] && [a, b][1..] == [b] && [b, c][1..] == [c] && [a][1..] == [];
    assert Flatten([a]) == a + Flatten([]) && Flatten([b]) == b + Flatten([]) && Flatten([c]) == c + Flatten([]);
    assert Flatten([a, b]) == a + Flatten([b]) && Flatten([b, c]) == b + Flatten([c]);
    assert Flatten([a, b, c]) == a + Flatten([b, c]);
  }

  /** Every builder of lib/exp.js with a fixed count yields one complete expression. */
  lemma {:induction false} FixedBuildersClosed(t: ExpType, name: string, op: CountedOp, options: int,
                                               left: Code, right: Code)
    requires Complete(left) && Complete(right)
    ensures Complete(KeyTypeExp(t)) && TreeOf(KeyTypeExp(t)) == Branch(Counted(Key), [Leaf(Int(TypeCode(t)))])
    ensures Complete(BinTypeExp(t, name))
      && TreeOf(BinTypeExp(t, name)) == Branch(Counted(Bin), [Leaf(Int(TypeCode(t))), Leaf(RawStr(name))])
    ensures Complete(BinTypeOf(name)) && TreeOf(BinTypeOf(name)) == Branch(Counted(BinType), [Leaf(RawStr(name))])
    ensures Complete(MetaExp(op)) && TreeOf(MetaExp(op)) == Branch(Counted(op), [])
    ensures Complete(CmpExp(op, left, right))
      && TreeOf(CmpExp(op, left, right)) == Branch(Counted(op), [TreeOf(left), TreeOf(right)])
    ensures Complete(CmpRegexExp(options, name, left))
      && TreeOf(CmpRegexExp(options, name, left))
         == Branch(Counted(CmpRegex), [Leaf(Int(Num(options))), Leaf(RawStr(name)), TreeOf(left)])
    ensures Complete(NotExp(left)) && TreeOf(NotExp(left)) == Branch(Counted(Not), [TreeOf(left)])
    ensures Complete(VarExp(name)) && TreeOf(VarExp(name)) == Branch(Counted(Var), [Leaf(RawStr(name))])
  {
    var ty, raw, opts := ValueExp(Int(TypeCode(t))), ValueExp(RawStr(name)), ValueExp(Int(Num(options)));
    Literals(ty[0].v);
    Literals(raw[0].v);
    Literals(opts[0].v);
    Counted1(Key, ty);
    Counted2(Bin, ty, raw);
    Counted1(BinType, raw);
    CountedClosed(op, 1, []);
    assert MetaExp(op) + Flatten([]) == MetaExp(op) && Trees([]) == [];
    Counted2(op, left, right);
    Counted3(CmpRegex, opts, raw, left);
    Counted1(Not, left);
    Counted1(Var, raw);
  }

  lemma {:induction false} Counted1(op: CountedOp, a: Code)
    requires Complete(a)
    ensures Complete([Header(op, 2)] + a) && TreeOf([Header(op, 2)] + a) == Branch(Counted(op), [TreeOf(a)])
  {
    CountedClosed(op, 2, [a]);
    FlattenFew(a, a, a);
    assert Trees([a]) == [TreeOf(a)];
  }

  lemma {:induction false} Counted2(op: CountedOp, a: Code, b: Code)
    requires Complete(a) && Complete(b)
    ensures Complete([Header(op, 3)] + a + b)
    ensures TreeOf([Header(op, 3)] + a + b) == Branch(Counted(op), [TreeOf(a), TreeOf(b)])
  {
    CountedClosed(op, 3, [a, b]);
    FlattenFew(a, b, b);
    Regroup([Header(op, 3)], a, b);
    assert Trees([a, b]) == [TreeOf(a), TreeOf(b)];
  }

  lemma {:induction false} Counted3(op: CountedOp, a: Code, b: Code, c: Code)
    requires Complete(a) && Complete(b) && Complete(c)
    ensures Complete([Header(op, 4)] + a + b + c)
    ensures TreeOf([Header(op, 4)] + a + b + c) == Branch(Counted(op), [TreeOf(a), TreeOf(b), TreeOf(c)])
  {
    CountedClosed(op, 4, [a, b, c]);
    FlattenFew(a, b, c);
    Regroup([Header(op, 4)], a, b);
    Regroup([Header(op, 4)], a + b, c);
    assert Trees([a, b, c]) == [TreeOf(a), TreeOf(b), TreeOf(c)];
  }

  /** The array that binExists emits compares the type of the bin with 0. */
  lemma {:induction false} BinExistsClosed(name: string)
    ensures Complete(BinExists(name))
    ensures TreeOf(BinExists(name))
      == Branch(Counted(CmpNe), [Branch(Counted(BinType), [Leaf(RawStr(name))]), Leaf(Int(Num(0)))])
  {
    Literals(Int(Num(0)));
    Literals(RawStr(name));
    Counted1(BinType, ValueExp(RawStr(name)));
    Counted2(CmpNe, BinTypeOf(name), ValueExp(Int(Num(0))));
  }

  // Definitions: `let` interleaves names and expressions before its body.

  function LetCodes(defs: seq<(string, Code)>, body: Code): seq<Code> {
    if defs == [] then [body]
    else [ValueExp(RawStr(defs[0].0)), defs[0].1] + LetCodes(defs[1..], body)
  }

  function DefCodes(defs: seq<(string, Code)>): seq<Code> {
    seq(|defs|, i requires 0 <= i < |defs| => DefExp(defs[i].0, defs[i].1))
  }

  lemma {:induction false} LetFlattens(defs: seq<(string, Code)>, body: Code)
    ensures Flatten(DefCodes(defs) + [body]) == Flatten(LetCodes(defs, body))
  {
    if defs == [] {
      assert DefCodes(defs) + [body] == [body];
    } else {
      var n, c := ValueExp(RawStr(defs[0].0)), defs[0].1;
      var rest := LetCodes(defs[1..], body);
      LetFlattens(defs[1..], body);
      assert (DefCodes(defs) + [body])[0] == n + c;
      assert (DefCodes(defs) + [body])[1..] == DefCodes(defs[1..]) + [body];
      assert ([n, c] + rest)[1..] == [c] + rest && ([c] + rest)[1..] == rest;
      Regroup(n, c, Flatten(rest));
    }
  }

  lemma {:induction false} LetCodesComplete(defs: seq<(string, Code)>, body: Code)
    requires Complete(body) && forall i | 0 <= i < |defs| :: Complete(defs[i].1)
    ensures AllComplete(LetCodes(defs, body)) && |LetCodes(defs, body)| == 2 * |defs| + 1
  {
    if defs != [] {
      Literals(RawStr(defs[0].0));
      LetCodesComplete(defs[1..], body);
    }
  }

  /** A `let` with any number of definitions is one complete expression, and two of them have
      the same array only if they make the same definitions and have the same body. */
  lemma {:induction false} LetClosed(defs: seq<(string, Code)>, body: Code)
    requires Complete(body) && forall i | 0 <= i < |defs| :: Complete(defs[i].1)
    ensures AllComplete(LetCodes(defs, body)) && Complete(LetExp(defs, body))
    ensures TreeOf(LetExp(defs, body)) == Branch(Variadic(Let), Trees(LetCodes(defs, body)))
  {
    LetCodesComplete(defs, body);
    LetFlattens(defs, body);
    VariadicClosed(Let, LetCodes(defs, body));
    assert DefCodes(defs) == seq(|defs|, i requires 0 <= i < |defs| => DefExp(defs[i].0, defs[i].1));
  }

  lemma {:induction false} LetInjective(d1: seq<(string, Code)>, b1: Code, d2: seq<(string, Code)>, b2: Code)
    requires Complete(b1) && forall i | 0 <= i < |d1| :: Complete(d1[i].1)
    requires Complete(b2) && forall i | 0 <= i < |d2| :: Complete(d2[i].1)
    requires LetExp(d1, b1) == LetExp(d2, b2)
    ensures d1 == d2 && b1 == b2
  {
    LetClosed(d1, b1);
    LetClosed(d2, b2);
    var c1, c2 := LetCodes(d1, b1), LetCodes(d2, b2);
    assert Trees(c1) == Trees(c2);
    forall i | 0 <= i < |c1| ensures c1[i] == c2[i] {
      CompleteIffEncoding(c1[i]);
      CompleteIffEncoding(c2[i]);
      assert Trees(c1)[i] == TreeOf(c1[i]) && Trees(c2)[i] == TreeOf(c2[i]);
    }
    assert c1 == c2;
    LetCodesComplete(d1, b1);
    LetCodesComplete(d2, b2);
    LetCodesDetermine(d1, b1, d2, b2);
  }

  lemma {:induction false} LetCodesDetermine(d1: seq<(string, Code)>, b1: Code, d2: seq<(string, Code)>, b2: Code)
    requires |d1| == |d2|
    requires LetCodes(d1, b1) == LetCodes(d2, b2)
    ensures d1 == d2 && b1 == b2
  {
    if d1 != [] {
      var c1, c2 := LetCodes(d1, b1), LetCodes(d2, b2);
      assert c1[0] == ValueExp(RawStr(d1[0].0)) && c2[0] == ValueExp(RawStr(d2[0].0));
      assert c1[1] == d1[0].1 && c2[1] == d2[0].1;
      assert c1[2..] == LetCodes(d1[1..], b1) && c2[2..] == LetCodes(d2[1..], b2);
      LetCodesDetermine(d1[1..], b1, d2[1..], b2);
      assert d1 == [d1[0]] + d1[1..] && d2 == [d2[0]] + d2[1..];
    }
  }

  /** `_paramsExp` counts tokens, so spreading its arguments into it is right exactly when
      every argument is a single token. */
  lemma {:induction false} ParamsExpExact(op: CountedOp, codes: seq<Code>)
    requires AllComplete(codes)
    ensures Complete(ParamsExp(op, Flatten(codes))) <==> forall i | 0 <= i < |codes| :: |codes[i]| == 1
  {
    CountedClosed(op, |Flatten(codes)| + 1, codes);
    FlattenLength(codes);
  }

  lemma {:induction false} FlattenLength(codes: seq<Code>)
    requires AllComplete(codes)
    ensures |Flatten(codes)| >= |codes|
    ensures |Flatten(codes)| == |codes| <==> forall i | 0 <= i < |codes| :: |codes[i]| == 1
  {
    if codes != [] {
      FlattenLength(codes[1..]);
      CompleteIffEncoding(codes[0]);
      assert codes == [codes[0]] + codes[1..];
    }
  }

  // Builders that do not say what their documentation says.

  /** `isTombstone` is, in every interpretation, a NOT of nothing, and no negation. */
  lemma {:induction false} TombstoneIsNot<V>(i: M.Interp<V>, e: Code)
    requires Complete(e)
    ensures Complete(IsTombstone()) && TreeOf(IsTombstone()) == Branch(Counted(Not), [])
    ensures M.Execute(i, IsTombstone()) == Some(i.node(Not, []))
    ensures IsTombstone() != NotExp(e) && TreeOf(NotExp(e)) == Branch(Counted(Not), [TreeOf(e)])
  {
    FixedBuildersClosed(TNil, [], Not, 0, e, e);
    M.CompleteArraysEvaluate(i, IsTombstone());
  }

  /** A metadata builder, such as that of `digestModulo`, leaves no room for an argument. */
  lemma {:induction false} MetaTakesNoArgument(op: CountedOp, args: seq<Code>)
    requires AllComplete(args)
    ensures Complete(MetaExp(op) + Flatten(args)) <==> args == []
  {
    CountedClosed(op, 1, args);
  }

  /** A JavaScript array of tokens and arrays. */
  datatype Item = Tok(t: Token) | Nested(items: seq<Item>)

  /** The array with all nested arrays taken apart. */
  function Flat(items: seq<Item>): Code
    decreases items
  {
    if items == [] then []
    else (match items[0] case Tok(t) => [t] case Nested(inner) => Flat(inner)) + Flat(items[1..])
  }

  /** `_paramsExp` called with what other builders return: each argument stays an array. */
  function ParamsCall(op: CountedOp, params: seq<seq<Item>>): seq<Item> {
    [Tok(Header(op, |params| + 1))] + seq(|params|, i requires 0 <= i < |params| => Nested(params[i]))
  }

  function FlatParams(params: seq<seq<Item>>): seq<Code> {
    seq(|params|, i requires 0 <= i < |params| => Flat(params[i]))
  }

  lemma {:induction false} FlatNested(params: seq<seq<Item>>)
    ensures Flat(seq(|params|, i requires 0 <= i < |params| => Nested(params[i]))) == Flatten(FlatParams(params))
  {
    if params != [] {
      var items := seq(|params|, i requires 0 <= i < |params| => Nested(params[i]));
      var more := seq(|params| - 1, i requires 0 <= i < |params| - 1 => Nested(params[1..][i]));
      FlatNested(params[1..]);
      assert items[1..] == more;
      assert FlatParams(params)[1..] == FlatParams(params[1..]);
    }
  }

  /** Its count is right: taken apart, the array is one expression, the branch of the arguments.
      But it is not flat: it has a nested array for each argument, and so is a token array if and
      only if there are none. */
  lemma {:induction false} ParamsCallNests(op: CountedOp, params: seq<seq<Item>>)
    requires AllComplete(FlatParams(params))
    ensures Complete(Flat(ParamsCall(op, params)))
    ensures TreeOf(Flat(ParamsCall(op, params))) == Branch(Counted(op), Trees(FlatParams(params)))
    ensures (forall x | x in ParamsCall(op, params) :: x.Tok?) <==> params == []
  {
    var items := ParamsCall(op, params);
    FlatNested(params);
    assert items[1..] == seq(|params|, i requires 0 <= i < |params| => Nested(params[i]));
    CountedClosed(op, |params| + 1, FlatParams(params));
    if params != [] { assert items[1] == Nested(params[0]); }
  }
}
