/** Expression trees, the flat token array that the builders of lib/exp.js emit for them,
    and a decoder for that array.

    The array is in prefix order and uses three framing rules:
    - a header with a `count` has `count - 1` children;
    - a variadic header has no count and is closed by an end marker;
    - a CALL_VOP_START header has a `count` that covers the operation code and its operands,
      but not the header itself.
    Constants supplied by the native add-on (operation codes, type codes, return types) are
    kept symbolic. */
module ExpSyntax {
  import opened Prelude

  datatype ExpType =
    | TNil | TBool | TInt | TStr | TList | TMap | TBlob | TFloat | TGeo | THll | TAuto | TError
    | NotAType(code: int)

  datatype ReturnKind =
    | RtNone | RtIndex | RtReverseIndex | RtRank | RtReverseRank | RtCount | RtKey | RtValue
    | RtExists | RtKeyValue | RtOrderedMap | RtUnorderedMap | RtOther(code: int)

  /** A return type is a kind with the INVERTED flag bit set or clear. */
  datatype ReturnType = ReturnType(kind: ReturnKind, inverted: bool)

  datatype System = CallCdt | CallBits | CallHll

  /** Operation codes of the list, map, bit and HyperLogLog operations. */
  datatype OpCode =
    | SIZE | GET_ALL_BY_VALUE | GET_BY_VALUE_INTERVAL | GET_BY_VALUE_LIST |
    GET_BY_VALUE_REL_RANK_RANGE | GET_BY_INDEX | GET_BY_INDEX_RANGE | GET_BY_RANK |
    GET_BY_RANK_RANGE | APPEND | APPEND_ITEMS | INSERT | INSERT_ITEMS | INCREMENT | SET | CLEAR |
    SORT | REMOVE_ALL_BY_VALUE | REMOVE_BY_VALUE_LIST | REMOVE_BY_VALUE_INTERVAL |
    REMOVE_BY_VALUE_REL_RANK_RANGE | REMOVE_BY_INDEX | REMOVE_BY_INDEX_RANGE | REMOVE_BY_RANK |
    REMOVE_BY_RANK_RANGE | PUT | PUT_ITEMS | REMOVE_BY_KEY | REMOVE_BY_KEY_LIST |
    REMOVE_BY_KEY_INTERVAL | REMOVE_BY_KEY_REL_INDEX_RANGE | GET_BY_KEY | GET_BY_KEY_INTERVAL |
    GET_BY_KEY_LIST | GET_BY_KEY_REL_INDEX_RANGE | RESIZE | REMOVE | OR | XOR | AND | NOT | LSHIFT |
    RSHIFT | ADD | SUBTRACT | SET_INT | GET | COUNT | LSCAN | RSCAN | GET_INT | INIT | GET_UNION |
    UNION_COUNT | INTERSECT_COUNT | SIMILARITY | DESCRIBE | MAY_CONTAIN

  /** The number carried by a VAL_INT or VAL_RTYPE token. */
  datatype Number =
    | Num(n: int)
    | TypeCode(t: ExpType)
    | ReturnCode(r: ReturnType)
    | SystemCode(sys: System, modifyLocal: bool)
    | OperationCode(op: OpCode)

  /** Tokens that stand for one whole operand. */
  datatype Literal =
    | Bool(b: bool) | Int(i: Number) | UInt(u: Number) | Float(r: real) | Str(s: string)
    | Bytes(data: seq<nat>, size: int) | Geo(json: string)
    | Nil | Inf | Wildcard | AsVal(json: string)
    | RType(i: Number)
    | RawStr(s: string)

  datatype CountedOp =
    | Key | KeyExist | Bin | BinType
    | SetName | DeviceSize | LastUpdate | SinceUpdate | VoidTime | Ttl | MemorySize | RecordSize
    | DigestModulo
    | CmpEq | CmpNe | CmpGt | CmpGe | CmpLt | CmpLe | CmpRegex | CmpGeo | Not
    | Pow | Log | Mod | Abs | Floor | Ceil | ToInt | ToFloat
    | IntNot | IntLshift | IntRshift | IntArshift | IntCount | IntLscan | IntRscan
    | Var | Call

  datatype VariadicOp =
    | And | Or | Exclusive | Add | Sub | Mul | Div | IntAnd | IntOr | IntXor | Min | Max
    | Cond | Let

  datatype ContextItem = ContextItem(code: nat, arg: int)
  type Context = seq<ContextItem>

  datatype Cdt = ListCdt | MapCdt
  datatype Policy = Policy(order: int, flags: int)

  datatype Token =
    | Lit(v: Literal)
    | Header(op: CountedOp, count: nat)
    | VaHeader(vop: VariadicOp)
    | EndVa
    | VopStart(count: nat, ctx: Option<Context>)
    | CrMod(cdt: Cdt, policy: Option<Policy>)

  type Code = seq<Token>

  /** The policy token of a list or map modification: how many units of the CALL_VOP_START
      count it stands for is the builder's choice when there is a policy, and 0 otherwise. */
  datatype PolicyPart = PolicyPart(cdt: Cdt, policy: Option<Policy>, weight: nat)

  datatype Head =
    | Counted(op: CountedOp)
    | Variadic(vop: VariadicOp)
    | Operation(ctx: Option<Context>, part: Option<PolicyPart>)

  datatype Expr = Leaf(v: Literal) | Branch(head: Head, kids: seq<Expr>)

  predicate IsOperation(e: Expr) { e.Branch? && e.head.Operation? }

  predicate HeadOk(h: Head) {
    h.Operation? && h.part.Some? ==> (h.part.value.policy.None? <==> h.part.value.weight == 0)
  }

  /** The trees that calls of the builders can denote: an operation with its operands occurs
      only below a counted header, and never as its last child (the bin follows it). */
  predicate Wf(e: Expr) {
    e.Branch? ==> HeadOk(e.head) && OperationsPlaced(e.head, e.kids) && forall k | k in e.kids :: Wf(k)
  }

  predicate OperationsPlaced(h: Head, kids: seq<Expr>) {
    forall i | 0 <= i < |kids| && IsOperation(kids[i]) :: h.Counted? && i + 1 < |kids|
  }

  /** The header token of a branch with `n` children. */
  function Opening(h: Head, n: nat): Token {
    match h
    case Counted(op) => Header(op, n + 1)
    case Variadic(op) => VaHeader(op)
    case Operation(ctx, part) => VopStart(n + (if part.Some? then part.value.weight else 0), ctx)
  }

  /** What follows the last child of a branch. */
  function Closing(h: Head): Code {
    match h
    case Counted(_) => []
    case Variadic(_) => [EndVa]
    case Operation(_, part) => if part.Some? then [CrMod(part.value.cdt, part.value.policy)] else []
  }

  /** The flat array of a tree. */
  function Encode(e: Expr): Code
    decreases e
  {
    match e
    case Leaf(v) => [Lit(v)]
    case Branch(h, kids) => [Opening(h, |kids|)] + (EncodeAll(kids) + Closing(h))
  }

  function EncodeAll(es: seq<Expr>): Code
    decreases es
  {
    if es == [] then [] else Encode(es[0]) + EncodeAll(es[1..])
  }

  datatype Parsed<+T> = Fail | Ok(value: T, rest: Code)

  predicate Opens(t: Token) {
    match t
    case Header(_, count) => count > 0
    case VaHeader(_) => true
    case VopStart(_, _) => true
    case _ => false
  }

  predicate Closes(ts: Code) { ts != [] && (ts[0].EndVa? || ts[0].CrMod?) }

  /** How many units the children of a header make up; None for a variadic header. */
  function Budget(t: Token): (b: Option<nat>)
    requires Opens(t)
  {
    match t
    case Header(_, count) => Some(count - 1)
    case VaHeader(_) => None
    case VopStart(count, _) => Some(count)
  }

  /** Closes a branch, given its header, its children, the units left over and what follows. */
  function Finish(t: Token, kids: seq<Expr>, left: Option<nat>, rest: Code): (r: Parsed<Expr>)
    ensures r.Ok? ==> |r.rest| <= |rest|
  {
    match t
    case Header(op, _) => if left == Some(0) then Ok(Branch(Counted(op), kids), rest) else Fail
    case VaHeader(op) =>
      if left.None? && Closes(rest) && rest[0].EndVa?
      then Ok(Branch(Variadic(op), kids), rest[1..]) else Fail
    case VopStart(_, ctx) =>
      if left.None? then Fail
      else if Closes(rest) && rest[0].CrMod? then
        if rest[0].policy.None? <==> left.value == 0 then
          Ok(Branch(Operation(ctx, Some(PolicyPart(rest[0].cdt, rest[0].policy, left.value))), kids), rest[1..])
        else Fail
      else if left.value == 0 then Ok(Branch(Operation(ctx, None), kids), rest) else Fail
    case _ => Fail
  }

  /** Reads one expression off the front of an array. */
  function Decode(ts: Code): (r: Parsed<Expr>)
    ensures r.Ok? ==> |r.rest| < |ts|
    decreases |ts|, 0
  {
    if ts == [] then Fail
    else if ts[0].Lit? then Ok(Leaf(ts[0].v), ts[1..])
    else if !Opens(ts[0]) then Fail
    else
      match DecodeKids(Budget(ts[0]), ts[1..])
      case Fail => Fail
      case Ok((kids, left), rest) => Finish(ts[0], kids, left, rest)
  }

  function Spend(b: Option<nat>): Option<nat>
    requires b != Some(0)
  {
    if b.None? then None else Some(b.value - 1)
  }

  /** Reads expressions until the budget is used up or a closing token comes; also yields the
      budget left over. */
  function DecodeKids(b: Option<nat>, ts: Code): (r: Parsed<(seq<Expr>, Option<nat>)>)
    ensures r.Ok? ==> |r.rest| <= |ts|
    decreases |ts|, 1
  {
    if b == Some(0) || Closes(ts) then Ok(([], b), ts) else
    match Decode(ts)
    case Fail => Fail
    case Ok(e, rest) =>
      match DecodeKids(Spend(b), rest)
      case Fail => Fail
      case Ok((es, left), rest') => Ok(([e] + es, left), rest')
  }
}
