/** The builders of lib/exp_lists.js, lib/exp_maps.js, lib/exp_bit.js and lib/exp_hll.js.

    Each builder spreads a CALL header, a return type, a system code, a CALL_VOP_START header
    whose count it states as a number, an operation code, its operands, possibly a policy
    token, and the bin. `Plan` records those ingredients as the builder gives them. */
module CdtBuilders {
  import opened Prelude
  import opened ExpSyntax
  import opened ExpCodec
  import opened ExpBuilders
  import M = ExpMachine

  /** The TypeErrors that a builder can throw. */
  datatype TypeErr = InvalidValueType | ReturnTypeMismatch | ValueTypeMismatch | EmptyContext

  datatype Result<+T> = Done(value: T) | Thrown(error: TypeErr)

  // Return types.

  const COUNT_RETURN := ReturnType(RtCount, false)
  const NO_RETURN := ReturnType(RtNone, false)

  /** The type that a read of kind `k` returns; a single value has the caller's type. */
  function Expected(cdt: Cdt, k: ReturnKind, t: ExpType, isMulti: bool): Option<ExpType> {
    match k
    case RtIndex | RtReverseIndex | RtRank | RtReverseRank => Some(if isMulti then TList else TInt)
    case RtCount => Some(TInt)
    case RtValue => Some(if isMulti then TList else t)
    case RtExists => Some(TBool)
    case RtKey => if cdt.MapCdt? then Some(if isMulti then TList else t) else None
    case RtKeyValue | RtOrderedMap | RtUnorderedMap => if cdt.MapCdt? then Some(TMap) else None
    case _ => None
  }

  function CdtType(cdt: Cdt, t: ExpType, rt: ReturnType, isMulti: bool): Result<ExpType> {
    if t.NotAType? then Thrown(InvalidValueType) else
    match Expected(cdt, rt.kind, t, isMulti)
    case None => Thrown(ReturnTypeMismatch)
    case Some(expected) =>
      if t == TAuto || t == expected then Done(expected)
      else Thrown(ValueTypeMismatch)
  }

  function ListType(t: ExpType, rt: ReturnType, isMulti: bool): Result<ExpType> { CdtType(ListCdt, t, rt, isMulti) }

  function MapType(t: ExpType, rt: ReturnType, isMulti: bool): Result<ExpType> { CdtType(MapCdt, t, rt, isMulti) }

  /** A single value, or a single key of a map, has whatever type the caller names. */
  predicate OfAnyType(cdt: Cdt, k: ReturnKind, isMulti: bool) {
    !isMulti && (k.RtValue? || (cdt.MapCdt? && k.RtKey?))
  }

  /** Which value types a read accepts: for a single value every type, which is then the type of
      the result; for anything else auto, if the return type is allowed, and the one type that
      auto comes to. Something that is not a type is never accepted. */
  lemma {:induction false} TypeExact(t: ExpType, rt: ReturnType, isMulti: bool, cdt: Cdt)
    ensures var r, auto := CdtType(cdt, t, rt, isMulti), CdtType(cdt, TAuto, rt, isMulti);
      if t.NotAType? then r.Thrown?
      else if OfAnyType(cdt, rt.kind, isMulti) then r == Done(t)
      else if auto.Done? && (t == TAuto || t == auto.value) then r == auto
      else r.Thrown?
  {
  }

  /** Naming the type that was worked out changes nothing, and maps accept what lists accept with
      the same answer. */
  lemma {:induction false} TypeLaws(t: ExpType, rt: ReturnType, isMulti: bool, cdt: Cdt)
    ensures var r := CdtType(cdt, t, rt, isMulti); r.Done? ==> CdtType(cdt, r.value, rt, isMulti) == r
    ensures ListType(t, rt, isMulti).Done? ==> MapType(t, rt, isMulti) == ListType(t, rt, isMulti)
  {
  }

  /** lib/cdt_context.js: the innermost context item decides; an empty context has none. */
  function ContextType(ctx: Option<Context>, t: ExpType): Result<ExpType> {
    if ctx.None? then Done(t)
    else if ctx.value == [] then Thrown(EmptyContext)
    else if (ctx.value[|ctx.value| - 1].code / 0x10) % 2 == 0 then Done(TMap) else Done(TList)
  }

  // Plans.

  datatype PolicyToken = PolicyToken(cdt: Cdt, policy: Option<Policy>, extra: nat)

  datatype Plan = Plan(rtype: Result<ExpType>, sys: Number, part: Option<PolicyToken>, ctx: Option<Context>,
                       op: OpCode, declared: nat, wire: seq<Code>, bin: Code)

  function Read(t: Result<ExpType>, ctx: Option<Context>, op: OpCode, n: nat, wire: seq<Code>, bin: Code): Plan {
    Plan(t, SystemCode(CallCdt, false), None, ctx, op, n, wire, bin)
  }

  function Modify(cdt: Cdt, ctx: Option<Context>, op: OpCode, n: nat, wire: seq<Code>, bin: Code): Plan {
    Plan(ContextType(ctx, if cdt.ListCdt? then TList else TMap), SystemCode(CallCdt, true), None,
         ctx, op, n, wire, bin)
  }

  function ModifyWith(cdt: Cdt, policy: Option<Policy>, extra: nat, ctx: Option<Context>, op: OpCode, n: nat,
                      wire: seq<Code>, bin: Code): Plan {
    Plan(ContextType(ctx, if cdt.ListCdt? then TList else TMap), SystemCode(CallCdt, true),
         Some(PolicyToken(cdt, policy, extra)), ctx, op, n, wire, bin)
  }

  function BitRead(t: ExpType, op: OpCode, n: nat, wire: seq<Code>, bin: Code): Plan {
    Plan(Done(t), SystemCode(CallBits, false), None, None, op, n, wire, bin)
  }

  function BitModify(op: OpCode, n: nat, wire: seq<Code>, bin: Code): Plan {
    Plan(Done(TBlob), SystemCode(CallBits, true), None, None, op, n, wire, bin)
  }

  function HllRead(t: ExpType, op: OpCode, n: nat, wire: seq<Code>, bin: Code): Plan {
    Plan(Done(t), SystemCode(CallHll, false), None, None, op, n, wire, bin)
  }

  function HllModify(op: OpCode, n: nat, wire: seq<Code>, bin: Code): Plan {
    Plan(Done(THll), SystemCode(CallHll, true), None, None, op, n, wire, bin)
  }

  function IntCode(n: int): Code { ValueExp(Int(Num(n))) }

  function UIntCode(n: int): Code { ValueExp(UInt(Num(n))) }

  function SignCode(sign: bool): Code { IntCode(if sign then 1 else 0) }

  function Ret(rt: ReturnType): Code { ValueExp(Int(ReturnCode(rt))) }

  function PolicyFlags(policy: Option<Policy>): Code {
    UIntCode(if policy.Some? then policy.value.flags else 0)
  }

  function HllFlags(policy: Option<Policy>): Code {
    IntCode(if policy.Some? then policy.value.flags else 0)
  }

  /** The units that a policy token is counted for. */
  function Extra(p: Plan): nat {
    if p.part.Some? && p.part.value.policy.Some? then p.part.value.extra else 0
  }

  function PolicyCode(p: Plan): Code {
    if p.part.Some? then [CrMod(p.part.value.cdt, p.part.value.policy)] else []
  }

  /** The array that the builder returns, or what it throws. */
  function Emit(p: Plan): Result<Code> {
    if p.rtype.Thrown? then Thrown(p.rtype.error)
    else Done([Header(Call, 5), Lit(RType(TypeCode(p.rtype.value))), Lit(Int(p.sys)),
               VopStart(1 + p.declared + Extra(p), p.ctx), Lit(Int(OperationCode(p.op)))]
              + (Flatten(p.wire) + PolicyCode(p) + p.bin))
  }

  // The builders, with their parameters in the order of the source.

  datatype ListReader =
    | Size(bin: Code, ctx: Option<Context>)
    | GetByValue(bin: Code, value: Code, returnType: ReturnType, ctx: Option<Context>)
    | GetByValueRange(bin: Code, begin: Code, end: Code, returnType: ReturnType, ctx: Option<Context>)
    | GetByValueList(bin: Code, value: Code, returnType: ReturnType, ctx: Option<Context>)
    | GetByRelRankRangeToEnd(bin: Code, value: Code, rank: Code, returnType: ReturnType, ctx: Option<Context>)
    | GetByRelRankRange(bin: Code, value: Code, rank: Code, count: Code, returnType: ReturnType, ctx: Option<Context>)
    | GetByIndex(bin: Code, index: Code, valueType: ExpType, returnType: ReturnType, ctx: Option<Context>)
    | GetByIndexRangeToEnd(bin: Code, index: Code, returnType: ReturnType, ctx: Option<Context>)
    | GetByIndexRange(bin: Code, index: Code, count: Code, returnType: ReturnType, ctx: Option<Context>)
    | GetByRank(bin: Code, rank: Code, valueType: ExpType, returnType: ReturnType, ctx: Option<Context>)
    | GetByRankRangeToEnd(bin: Code, rank: Code, returnType: ReturnType, ctx: Option<Context>)
    | GetByRankRange(bin: Code, rank: Code, count: Code, returnType: ReturnType, ctx: Option<Context>)

  function ListReaderPlan(b: ListReader): Plan {
    match b
    case Size(bin, ctx) =>
      Read(ListType(TAuto, COUNT_RETURN, false), ctx, SIZE, 0, [], bin)
    case GetByValue(bin, value, returnType, ctx) =>
      Read(ListType(TAuto, returnType, true), ctx, GET_ALL_BY_VALUE, 2, [Ret(returnType), value], bin)
    case GetByValueRange(bin, begin, end, returnType, ctx) =>
      Read(ListType(TAuto, returnType, true), ctx, GET_BY_VALUE_INTERVAL, 3, [Ret(returnType), begin, end], bin)
    case GetByValueList(bin, value, returnType, ctx) =>
      Read(ListType(TAuto, returnType, true), ctx, GET_BY_VALUE_LIST, 2, [Ret(returnType), value], bin)
    case GetByRelRankRangeToEnd(bin, value, rank, returnType, ctx) =>
      Read(ListType(TAuto, returnType, true), ctx, GET_BY_VALUE_REL_RANK_RANGE, 3,
        [Ret(returnType), value, rank], bin)
    case GetByRelRankRange(bin, value, rank, count, returnType, ctx) =>
      Read(ListType(TAuto, returnType, true), ctx, GET_BY_VALUE_REL_RANK_RANGE, 4,
        [Ret(returnType), value, rank, count], bin)
    case GetByIndex(bin, index, valueType, returnType, ctx) =>
      Read(ListType(valueType, returnType, false), ctx, GET_BY_INDEX, 2, [Ret(returnType), index], bin)
    case GetByIndexRangeToEnd(bin, index, returnType, ctx) =>
      Read(ListType(TAuto, returnType, true), ctx, GET_BY_INDEX_RANGE, 2, [Ret(returnType), index], bin)
    case GetByIndexRange(bin, index, count, returnType, ctx) =>
      Read(ListType(TAuto, returnType, true), ctx, GET_BY_INDEX_RANGE, 3, [Ret(returnType), index, count], bin)
    case GetByRank(bin, rank, valueType, returnType, ctx) =>
      Read(ListType(valueType, returnType, false), ctx, GET_BY_RANK, 2, [Ret(returnType), rank], bin)
    case GetByRankRangeToEnd(bin, rank, returnType, ctx) =>
      Read(ListType(TAuto, returnType, true), ctx, GET_BY_RANK_RANGE, 2, [Ret(returnType), rank], bin)
    case GetByRankRange(bin, rank, count, returnType, ctx) =>
      Read(ListType(TAuto, returnType, true), ctx, GET_BY_RANK_RANGE, 3, [Ret(returnType), rank, count], bin)
  }

  datatype ListModifier =
    | Append(bin: Code, value: Code, policy: Option<Policy>, ctx: Option<Context>)
    | AppendItems(bin: Code, value: Code, policy: Option<Policy>, ctx: Option<Context>)
    | Insert(bin: Code, value: Code, idx: Code, policy: Option<Policy>, ctx: Option<Context>)
    | InsertItems(bin: Code, value: Code, idx: Code, policy: Option<Policy>, ctx: Option<Context>)
    | Increment(bin: Code, value: Code, idx: Code, policy: Option<Policy>, ctx: Option<Context>)
    | Set(bin: Code, value: Code, idx: Code, policy: Option<Policy>, ctx: Option<Context>)
    | Clear(bin: Code, ctx: Option<Context>)
    | Sort(bin: Code, order: int, ctx: Option<Context>)
    | RemoveByValue(bin: Code, value: Code, ctx: Option<Context>, returnType: ReturnType)
    | RemoveByValueList(bin: Code, values: Code, ctx: Option<Context>, returnType: ReturnType)
    | RemoveByValueRange(bin: Code, end: Code, begin: Code, ctx: Option<Context>, returnType: ReturnType)
    | RemoveByRelRankRangeToEnd(bin: Code, rank: Code, value: Code, ctx: Option<Context>, returnType: ReturnType)
    | RemoveByRelRankRange(bin: Code, count: Code, rank: Code, value: Code,
                           ctx: Option<Context>, returnType: ReturnType)
    | RemoveByIndex(bin: Code, idx: Code, ctx: Option<Context>, returnType: ReturnType)
    | RemoveByIndexRangeToEnd(bin: Code, idx: Code, ctx: Option<Context>, returnType: ReturnType)
    | RemoveByIndexRange(bin: Code, count: Code, idx: Code, ctx: Option<Context>, returnType: ReturnType)
    | RemoveByRank(bin: Code, rank: Code, ctx: Option<Context>, returnType: ReturnType)
    | RemoveByRankRangeToEnd(bin: Code, rank: Code, ctx: Option<Context>, returnType: ReturnType)
    | RemoveByRankRange(bin: Code, count: Code, rank: Code, ctx: Option<Context>, returnType: ReturnType)

  function ListModifierPlan(b: ListModifier): Plan {
    match b
    case Append(bin, value, policy, ctx) =>
      ModifyWith(ListCdt, policy, 2, ctx, APPEND, 1, [value], bin)
    case AppendItems(bin, value, policy, ctx) =>
      ModifyWith(ListCdt, policy, 2, ctx, APPEND_ITEMS, 1, [value], bin)
    case Insert(bin, value, idx, policy, ctx) =>
      ModifyWith(ListCdt, policy, 1, ctx, INSERT, 2, [idx, value], bin)
    case InsertItems(bin, value, idx, policy, ctx) =>
      ModifyWith(ListCdt, policy, 1, ctx, INSERT_ITEMS, 2, [idx, value], bin)
    case Increment(bin, value, idx, policy, ctx) =>
      ModifyWith(ListCdt, policy, 2, ctx, INCREMENT, 2, [idx, value], bin)
    case Set(bin, value, idx, policy, ctx) =>
      ModifyWith(ListCdt, policy, 1, ctx, SET, 2, [idx, value], bin)
    case Clear(bin, ctx) =>
      Modify(ListCdt, ctx, CLEAR, 0, [], bin)
    case Sort(bin, order, ctx) =>
      Modify(ListCdt, ctx, SORT, 1, [IntCode(order)], bin)
    case RemoveByValue(bin, value, ctx, _) =>
      Modify(ListCdt, ctx, REMOVE_ALL_BY_VALUE, 2, [Ret(NO_RETURN), value], bin)
    case RemoveByValueList(bin, values, ctx, _) =>
      Modify(ListCdt, ctx, REMOVE_BY_VALUE_LIST, 2, [Ret(NO_RETURN), values], bin)
    case RemoveByValueRange(bin, end, begin, ctx, _) =>
      Modify(ListCdt, ctx, REMOVE_BY_VALUE_INTERVAL, 3, [Ret(NO_RETURN), begin, end], bin)
    case RemoveByRelRankRangeToEnd(bin, rank, value, ctx, _) =>
      Modify(ListCdt, ctx, REMOVE_BY_VALUE_REL_RANK_RANGE, 3, [Ret(NO_RETURN), value, rank], bin)
    case RemoveByRelRankRange(bin, count, rank, value, ctx, _) =>
      Modify(ListCdt, ctx, REMOVE_BY_VALUE_REL_RANK_RANGE, 4, [Ret(NO_RETURN), value, rank, count], bin)
    case RemoveByIndex(bin, idx, ctx, _) =>
      Modify(ListCdt, ctx, REMOVE_BY_INDEX, 2, [Ret(NO_RETURN), idx], bin)
    case RemoveByIndexRangeToEnd(bin, idx, ctx, _) =>
      Modify(ListCdt, ctx, REMOVE_BY_INDEX_RANGE, 2, [Ret(NO_RETURN), idx], bin)
    case RemoveByIndexRange(bin, count, idx, ctx, _) =>
      Modify(ListCdt, ctx, REMOVE_BY_INDEX_RANGE, 3, [Ret(NO_RETURN), idx, count], bin)
    case RemoveByRank(bin, rank, ctx, _) =>
      Modify(ListCdt, ctx, REMOVE_BY_RANK, 2, [Ret(NO_RETURN), rank], bin)
    case RemoveByRankRangeToEnd(bin, rank, ctx, _) =>
      Modify(ListCdt, ctx, REMOVE_BY_RANK_RANGE, 2, [Ret(NO_RETURN), rank], bin)
    case RemoveByRankRange(bin, count, rank, ctx, _) =>
      Modify(ListCdt, ctx, REMOVE_BY_RANK_RANGE, 3, [Ret(NO_RETURN), rank, count], bin)
  }

  datatype MapModifier =
    | Put(bin: Code, value: Code, key: Code, policy: Option<Policy>, ctx: Option<Context>)
    | PutItems(bin: Code, items: Code, policy: Option<Policy>, ctx: Option<Context>)
    | Increment(bin: Code, value: Code, key: Code, policy: Option<Policy>, ctx: Option<Context>)
    | Clear(bin: Code, ctx: Option<Context>)
    | RemoveByKey(bin: Code, key: Code, ctx: Option<Context>, returnType: ReturnType)
    | RemoveByKeyList(bin: Code, keys: Code, ctx: Option<Context>, returnType: ReturnType)
    | RemoveByKeyRange(bin: Code, end: Code, begin: Code, ctx: Option<Context>, returnType: ReturnType)
    | RemoveByKeyRelIndexRangeToEnd(bin: Code, idx: Code, key: Code, ctx: Option<Context>, returnType: ReturnType)
    | RemoveByKeyRelIndexRange(bin: Code, count: Code, idx: Code, key: Code,
                               ctx: Option<Context>, returnType: ReturnType)
    | RemoveByValue(bin: Code, value: Code, ctx: Option<Context>, returnType: ReturnType)
    | RemoveByValueList(bin: Code, values: Code, ctx: Option<Context>, returnType: ReturnType)
    | RemoveByValueRange(bin: Code, end: Code, begin: Code, ctx: Option<Context>, returnType: ReturnType)
    | RemoveByValueRelRankRangeToEnd(bin: Code, rank: Code, value: Code, ctx: Option<Context>, returnType: ReturnType)
    | RemoveByValueRelRankRange(bin: Code, count: Code, rank: Code, value: Code,
                                ctx: Option<Context>, returnType: ReturnType)
    | RemoveByIndex(bin: Code, idx: Code, ctx: Option<Context>, returnType: ReturnType)
    | RemoveByIndexRangeToEnd(bin: Code, idx: Code, ctx: Option<Context>, returnType: ReturnType)
    | RemoveByIndexRange(bin: Code, count: Code, idx: Code, ctx: Option<Context>, returnType: ReturnType)
    | RemoveByRank(bin: Code, rank: Code, ctx: Option<Context>, returnType: ReturnType)
    | RemoveByRankRangeToEnd(bin: Code, rank: Code, ctx: Option<Context>, returnType: ReturnType)
    | RemoveByRankRange(bin: Code, count: Code, rank: Code, ctx: Option<Context>, returnType: ReturnType)

  function MapModifierPlan(b: MapModifier): Plan {
    match b
    case Put(bin, value, key, policy, ctx) =>
      ModifyWith(MapCdt, policy, 2, ctx, PUT, 2, [key, value], bin)
    case PutItems(bin, items, policy, ctx) =>
      ModifyWith(MapCdt, policy, 2, ctx, PUT_ITEMS, 1, [items], bin)
    case Increment(bin, value, key, policy, ctx) =>
      ModifyWith(MapCdt, policy, 1, ctx, INCREMENT, 2, [key, value], bin)
    case Clear(bin, ctx) =>
      Modify(MapCdt, ctx, CLEAR, 0, [], bin)
    case RemoveByKey(bin, key, ctx, returnType) =>
      Modify(MapCdt, ctx, REMOVE_BY_KEY, 2, [Ret(returnType), key], bin)
    case RemoveByKeyList(bin, keys, ctx, returnType) =>
      Modify(MapCdt, ctx, REMOVE_BY_KEY_LIST, 2, [Ret(returnType), keys], bin)
    case RemoveByKeyRange(bin, end, begin, ctx, returnType) =>
      Modify(MapCdt, ctx, REMOVE_BY_KEY_INTERVAL, 3, [Ret(returnType), begin, end], bin)
    case RemoveByKeyRelIndexRangeToEnd(bin, idx, key, ctx, returnType) =>
      Modify(MapCdt, ctx, REMOVE_BY_KEY_REL_INDEX_RANGE, 3, [Ret(returnType), key, idx], bin)
    case RemoveByKeyRelIndexRange(bin, count, idx, key, ctx, returnType) =>
      Modify(MapCdt, ctx, REMOVE_BY_KEY_REL_INDEX_RANGE, 4, [Ret(returnType), key, idx, count], bin)
    case RemoveByValue(bin, value, ctx, returnType) =>
      Modify(MapCdt, ctx, REMOVE_ALL_BY_VALUE, 2, [Ret(returnType), value], bin)
    case RemoveByValueList(bin, values, ctx, returnType) =>
      Modify(MapCdt, ctx, REMOVE_BY_VALUE_LIST, 2, [Ret(returnType), values], bin)
    case RemoveByValueRange(bin, end, begin, ctx, returnType) =>
      Modify(MapCdt, ctx, REMOVE_BY_VALUE_INTERVAL, 3, [Ret(returnType), begin, end], bin)
    case RemoveByValueRelRankRangeToEnd(bin, rank, value, ctx, returnType) =>
      Modify(MapCdt, ctx, REMOVE_BY_VALUE_REL_RANK_RANGE, 3, [Ret(returnType), value, rank], bin)
    case RemoveByValueRelRankRange(bin, count, rank, value, ctx, returnType) =>
      Modify(MapCdt, ctx, REMOVE_BY_VALUE_REL_RANK_RANGE, 4, [Ret(returnType), value, rank, count], bin)
    case RemoveByIndex(bin, idx, ctx, returnType) =>
      Modify(MapCdt, ctx, REMOVE_BY_INDEX, 2, [Ret(returnType), idx], bin)
    case RemoveByIndexRangeToEnd(bin, idx, ctx, returnType) =>
      Modify(MapCdt, ctx, REMOVE_BY_INDEX_RANGE, 2, [Ret(returnType), idx], bin)
    case RemoveByIndexRange(bin, count, idx, ctx, returnType) =>
      Modify(MapCdt, ctx, REMOVE_BY_INDEX_RANGE, 3, [Ret(returnType), idx, count], bin)
    case RemoveByRank(bin, rank, ctx, returnType) =>
      Modify(MapCdt, ctx, REMOVE_BY_RANK, 2, [Ret(returnType), rank], bin)
    case RemoveByRankRangeToEnd(bin, rank, ctx, returnType) =>
      Modify(MapCdt, ctx, REMOVE_BY_RANK_RANGE, 2, [Ret(returnType), rank], bin)
    case RemoveByRankRange(bin, count, rank, ctx, returnType) =>
      Modify(MapCdt, ctx, REMOVE_BY_RANK_RANGE, 3, [Ret(returnType), rank, count], bin)
  }

  datatype MapReader =
    | Size(bin: Code, ctx: Option<Context>)
    | GetByKey(bin: Code, key: Code, valueType: ExpType, returnType: ReturnType, ctx: Option<Context>)
    | GetByKeyRange(bin: Code, end: Code, begin: Code, returnType: ReturnType, ctx: Option<Context>)
    | GetByKeyList(bin: Code, keys: Code, returnType: ReturnType, ctx: Option<Context>)
    | GetByKeyRelIndexRangeToEnd(bin: Code, idx: Code, key: Code, returnType: ReturnType, ctx: Option<Context>)
    | GetByKeyRelIndexRange(bin: Code, count: Code, idx: Code, key: Code, returnType: ReturnType, ctx: Option<Context>)
    | GetByValue(bin: Code, value: Code, returnType: ReturnType, ctx: Option<Context>)
    | GetByValueRange(bin: Code, end: Code, begin: Code, returnType: ReturnType, ctx: Option<Context>)
    | GetByValueList(bin: Code, values: Code, returnType: ReturnType, ctx: Option<Context>)
    | GetByValueRelRankRangeToEnd(bin: Code, rank: Code, value: Code, returnType: ReturnType, ctx: Option<Context>)
    | GetByValueRelRankRange(bin: Code, count: Code, rank: Code, value: Code,
                             returnType: ReturnType, ctx: Option<Context>)
    | GetByIndex(bin: Code, idx: Code, valueType: ExpType, returnType: ReturnType, ctx: Option<Context>)
    | GetByIndexRangeToEnd(bin: Code, idx: Code, returnType: ReturnType, ctx: Option<Context>)
    | GetByIndexRange(bin: Code, count: Code, idx: Code, returnType: ReturnType, ctx: Option<Context>)
    | GetByRank(bin: Code, rank: Code, valueType: ExpType, returnType: ReturnType, ctx: Option<Context>)
    | GetByRankRangeToEnd(bin: Code, rank: Code, returnType: ReturnType, ctx: Option<Context>)
    | GetByRankRange(bin: Code, count: Code, rank: Code, returnType: ReturnType, ctx: Option<Context>)

  function MapReaderPlan(b: MapReader): Plan {
    match b
    case Size(bin, ctx) =>
      Read(MapType(TAuto, COUNT_RETURN, false), ctx, SIZE, 0, [], bin)
    case GetByKey(bin, key, valueType, returnType, ctx) =>
      Read(MapType(valueType, returnType, false), ctx, GET_BY_KEY, 2, [Ret(returnType), key], bin)
    case GetByKeyRange(bin, end, begin, returnType, ctx) =>
      Read(MapType(TAuto, returnType, true), ctx, GET_BY_KEY_INTERVAL, 3, [Ret(returnType), begin, end], bin)
    case GetByKeyList(bin, keys, returnType, ctx) =>
      Read(MapType(TAuto, returnType, true), ctx, GET_BY_KEY_LIST, 2, [Ret(returnType), keys], bin)
    case GetByKeyRelIndexRangeToEnd(bin, idx, key, returnType, ctx) =>
      Read(MapType(TAuto, returnType, true), ctx, GET_BY_KEY_REL_INDEX_RANGE, 3,
        [Ret(returnType), key, idx], bin)
    case GetByKeyRelIndexRange(bin, count, idx, key, returnType, ctx) =>
      Read(MapType(TAuto, returnType, true), ctx, GET_BY_KEY_REL_INDEX_RANGE, 4,
        [Ret(returnType), key, idx, count], bin)
    case GetByValue(bin, value, returnType, ctx) =>
      Read(MapType(TAuto, returnType, true), ctx, GET_ALL_BY_VALUE, 2, [Ret(returnType), value], bin)
    case GetByValueRange(bin, end, begin, returnType, ctx) =>
      Read(MapType(TAuto, returnType, true), ctx, GET_BY_VALUE_INTERVAL, 3, [Ret(returnType), begin, end], bin)
    case GetByValueList(bin, values, returnType, ctx) =>
      Read(MapType(TAuto, returnType, true), ctx, GET_BY_VALUE_LIST, 2, [Ret(returnType), values], bin)
    case GetByValueRelRankRangeToEnd(bin, rank, value, returnType, ctx) =>
      Read(MapType(TAuto, returnType, true), ctx, GET_BY_VALUE_REL_RANK_RANGE, 3,
        [Ret(returnType), value, rank], bin)
    case GetByValueRelRankRange(bin, count, rank, value, returnType, ctx) =>
      Read(MapType(TAuto, returnType, true), ctx, GET_BY_VALUE_REL_RANK_RANGE, 4,
        [Ret(returnType), value, rank, count], bin)
    case GetByIndex(bin, idx, valueType, returnType, ctx) =>
      Read(MapType(valueType, returnType, false), ctx, GET_BY_INDEX, 2, [Ret(returnType), idx], bin)
    case GetByIndexRangeToEnd(bin, idx, returnType, ctx) =>
      Read(MapType(TAuto, returnType, true), ctx, GET_BY_INDEX_RANGE, 2, [Ret(returnType), idx], bin)
    case GetByIndexRange(bin, count, idx, returnType, ctx) =>
      Read(MapType(TAuto, returnType, true), ctx, GET_BY_INDEX_RANGE, 3, [Ret(returnType), idx, count], bin)
    case GetByRank(bin, rank, valueType, returnType, ctx) =>
      Read(MapType(valueType, returnType, false), ctx, GET_BY_RANK, 2, [Ret(returnType), rank], bin)
    case GetByRankRangeToEnd(bin, rank, returnType, ctx) =>
      Read(MapType(TAuto, returnType, true), ctx, GET_BY_RANK_RANGE, 2, [Ret(returnType), rank], bin)
    case GetByRankRange(bin, count, rank, returnType, ctx) =>
      Read(MapType(TAuto, returnType, true), ctx, GET_BY_RANK_RANGE, 3, [Ret(returnType), rank, count], bin)
  }

  datatype BitModifier =
    | ReSize(bin: Code, flags: int, byteSize: Code, policy: Option<Policy>)
    | Insert(bin: Code, value: Code, byteOffset: Code, policy: Option<Policy>)
    | Remove(bin: Code, byteSize: Code, byteOffset: Code, policy: Option<Policy>)
    | Set(bin: Code, value: Code, bitSize: Code, bitOffset: Code, policy: Option<Policy>)
    | Or(bin: Code, value: Code, bitSize: Code, bitOffset: Code, policy: Option<Policy>)
    | Xor(bin: Code, value: Code, bitSize: Code, bitOffset: Code, policy: Option<Policy>)
    | And(bin: Code, value: Code, bitSize: Code, bitOffset: Code, policy: Option<Policy>)
    | Not(bin: Code, bitSize: Code, bitOffset: Code, policy: Option<Policy>)
    | LShift(bin: Code, shift: Code, bitSize: Code, bitOffset: Code, policy: Option<Policy>)
    | RShift(bin: Code, shift: Code, bitSize: Code, bitOffset: Code, policy: Option<Policy>)
    | Add(bin: Code, action: int, value: Code, bitSize: Code, bitOffset: Code, policy: Option<Policy>)
    | Subtract(bin: Code, action: int, value: Code, bitSize: Code, bitOffset: Code, policy: Option<Policy>)
    | SetInt(bin: Code, value: Code, bitSize: Code, bitOffset: Code, policy: Option<Policy>)

  function BitModifierPlan(b: BitModifier): Plan {
    match b
    case ReSize(bin, flags, byteSize, policy) =>
      BitModify(RESIZE, 3, [byteSize, PolicyFlags(policy), UIntCode(flags)], bin)
    case Insert(bin, value, byteOffset, policy) =>
      BitModify(INSERT, 3, [byteOffset, value, PolicyFlags(policy)], bin)
    case Remove(bin, byteSize, byteOffset, policy) =>
      BitModify(REMOVE, 3, [byteOffset, byteSize, PolicyFlags(policy)], bin)
    case Set(bin, value, bitSize, bitOffset, policy) =>
      BitModify(SET, 4, [bitOffset, bitSize, value, PolicyFlags(policy)], bin)
    case Or(bin, value, bitSize, bitOffset, policy) =>
      BitModify(OR, 4, [bitOffset, bitSize, value, PolicyFlags(policy)], bin)
    case Xor(bin, value, bitSize, bitOffset, policy) =>
      BitModify(XOR, 4, [bitOffset, bitSize, value, PolicyFlags(policy)], bin)
    case And(bin, value, bitSize, bitOffset, policy) =>
      BitModify(AND, 4, [bitOffset, bitSize, value, PolicyFlags(policy)], bin)
    case Not(bin, bitSize, bitOffset, policy) =>
      BitModify(NOT, 3, [bitOffset, bitSize, PolicyFlags(policy)], bin)
    case LShift(bin, shift, bitSize, bitOffset, policy) =>
      BitModify(LSHIFT, 4, [bitOffset, bitSize, shift, PolicyFlags(policy)], bin)
    case RShift(bin, shift, bitSize, bitOffset, policy) =>
      BitModify(RSHIFT, 4, [bitOffset, bitSize, shift, PolicyFlags(policy)], bin)
    case Add(bin, action, value, bitSize, bitOffset, policy) =>
      BitModify(ADD, 5, [bitOffset, bitSize, value, PolicyFlags(policy), UIntCode(action)], bin)
    case Subtract(bin, action, value, bitSize, bitOffset, policy) =>
      BitModify(SUBTRACT, 5, [bitOffset, bitSize, value, PolicyFlags(policy), UIntCode(action)], bin)
    case SetInt(bin, value, bitSize, bitOffset, policy) =>
      BitModify(SET_INT, 4, [bitOffset, bitSize, value, PolicyFlags(policy)], bin)
  }

  datatype BitReader =
    | Get(bin: Code, bitSize: Code, bitOffset: Code)
    | Count(bin: Code, bitSize: Code, bitOffset: Code)
    | LScan(bin: Code, value: Code, bitSize: Code, bitOffset: Code)
    | RScan(bin: Code, value: Code, bitSize: Code, bitOffset: Code)
    | GetInt(bin: Code, sign: bool, bitSize: Code, bitOffset: Code)

  function BitReaderPlan(b: BitReader): Plan {
    match b
    case Get(bin, bitSize, bitOffset) =>
      BitRead(TBlob, GET, 2, [bitOffset, bitSize], bin)
    case Count(bin, bitSize, bitOffset) =>
      BitRead(TInt, COUNT, 2, [bitOffset, bitSize], bin)
    case LScan(bin, value, bitSize, bitOffset) =>
      BitRead(TInt, LSCAN, 3, [bitOffset, bitSize, value], bin)
    case RScan(bin, value, bitSize, bitOffset) =>
      BitRead(TInt, RSCAN, 3, [bitOffset, bitSize, value], bin)
    case GetInt(bin, sign, bitSize, bitOffset) =>
      BitRead(TInt, GET_INT, 3, [bitOffset, bitSize, SignCode(sign)], bin)
  }

  datatype HllBuilder =
    | InitMH(bin: Code, mhBitCount: int, indexBitCount: int, policy: Option<Policy>)
    | Init(bin: Code, indexBitCount: int, policy: Option<Policy>)
    | AddMH(bin: Code, mhBitCount: int, indexBitCount: int, list: Code, policy: Option<Policy>)
    | Add(bin: Code, indexBitCount: int, list: Code, policy: Option<Policy>)
    | Update(bin: Code, list: Code, policy: Option<Policy>)
    | GetCount(bin: Code)
    | GetUnion(bin: Code, list: Code)
    | GetUnionCount(bin: Code, list: Code)
    | GetIntersectCount(bin: Code, list: Code)
    | GetSimilarity(bin: Code, list: Code)
    | Describe(bin: Code)
    | MayContain(bin: Code, list: Code)

  function HllPlan(b: HllBuilder): Plan {
    match b
    case InitMH(bin, mhBitCount, indexBitCount, policy) =>
      HllModify(INIT, 3, [IntCode(indexBitCount), IntCode(mhBitCount), HllFlags(policy)], bin)
    case Init(bin, indexBitCount, policy) =>
      HllModify(INIT, 2, [IntCode(indexBitCount), HllFlags(policy)], bin)
    case AddMH(bin, mhBitCount, indexBitCount, list, policy) =>
      HllModify(ADD, 4, [list, IntCode(indexBitCount), IntCode(mhBitCount), HllFlags(policy)], bin)
    case Add(bin, indexBitCount, list, policy) =>
      HllModify(ADD, 4, [list, IntCode(indexBitCount), IntCode(-1), HllFlags(policy)], bin)
    case Update(bin, list, policy) =>
      HllModify(ADD, 4, [list, IntCode(-1), IntCode(-1), HllFlags(policy)], bin)
    case GetCount(bin) =>
      HllRead(TInt, COUNT, 0, [], bin)
    case GetUnion(bin, list) =>
      HllRead(THll, GET_UNION, 1, [list], bin)
    case GetUnionCount(bin, list) =>
      HllRead(TInt, UNION_COUNT, 1, [list], bin)
    case GetIntersectCount(bin, list) =>
      HllRead(TInt, INTERSECT_COUNT, 1, [list], bin)
    case GetSimilarity(bin, list) =>
      HllRead(TFloat, SIMILARITY, 1, [list], bin)
    case Describe(bin) =>
      HllRead(TList, DESCRIBE, 0, [], bin)
    case MayContain(bin, list) =>
      HllRead(TInt, MAY_CONTAIN, 1, [list], bin)
  }

  // Every builder yields one complete expression.

  predicate CountOk(p: Plan) {
    p.declared == |p.wire| && (p.part.Some? ==> p.part.value.extra > 0)
  }

  predicate InputsComplete(p: Plan) { AllComplete(p.wire) && Complete(p.bin) }

  function OperationTree(p: Plan): Expr
    requires InputsComplete(p)
  {
    var part := if p.part.Some?
                then Some(PolicyPart(p.part.value.cdt, p.part.value.policy, Extra(p))) else None;
    Branch(Operation(p.ctx, part), [Leaf(Int(OperationCode(p.op)))] + Trees(p.wire))
  }

  /** CALL has four children: return type, system, operation with operands, bin. */
  function CallTree(p: Plan): Expr
    requires p.rtype.Done? && InputsComplete(p)
  {
    Branch(Counted(Call), [Leaf(RType(TypeCode(p.rtype.value))), Leaf(Int(p.sys)), OperationTree(p), TreeOf(p.bin)])
  }

  function Start(p: Plan): Token { VopStart(1 + p.declared + Extra(p), p.ctx) }

  function OpToken(p: Plan): Token { Lit(Int(OperationCode(p.op))) }

  lemma {:induction false} OperationTreeOk(p: Plan)
    requires CountOk(p) && InputsComplete(p)
    ensures Wf(OperationTree(p)) && IsOperation(OperationTree(p))
    ensures Encode(OperationTree(p)) == [Start(p), OpToken(p)] + (Flatten(p.wire) + PolicyCode(p))
  {
    var h := OperationTree(p).head;
    var op := Leaf(OpToken(p).v);
    var kids := [op] + Trees(p.wire);
    assert AllExpr(kids);
    BranchIsExpr(h, kids);
    OperandCodes(p, kids);
    TwoFirst(Start(p), OpToken(p), Flatten(p.wire), PolicyCode(p));
    assert Closing(h) == PolicyCode(p) && Opening(h, |kids|) == Start(p);
  }

  lemma {:induction false} TwoFirst(a: Token, b: Token, c: Code, d: Code)
    ensures [a] + (([b] + c) + d) == [a, b] + (c + d)
  {
  }

  /** Builder closure: with complete operands, the array of a builder is exactly one complete
      expression, namely the CALL tree, whatever policy and context are given. */
  lemma {:induction false} EmitClosed(p: Plan)
    requires CountOk(p) && InputsComplete(p) && p.rtype.Done?
    ensures Complete(Emit(p).value) && TreeOf(Emit(p).value) == CallTree(p)
  {
    var e := CallTree(p);
    var mid, bin := OperationTree(p), TreeOf(p.bin);
    var l1, l2 := e.kids[0], e.kids[1];
    assert Encode(e) == Emit(p).value by {
      OperationTreeOk(p);
      CompleteIffEncoding(p.bin);
      EncodeFour(l1, l2, mid, bin);
      CallLayout(Header(Call, 5), l1, l2, Start(p), OpToken(p), Flatten(p.wire) + PolicyCode(p), p.bin);
    }
    assert IsExpr(e) by {
      OperationTreeOk(p);
      CallIsExpr(l1, l2, mid, bin);
    }
    CompleteEncoding(e);
  }

  lemma {:induction false} CallIsExpr(a: Expr, b: Expr, c: Expr, d: Expr)
    requires IsExpr(a) && IsExpr(b) && Wf(c) && IsExpr(d)
    ensures IsExpr(Branch(Counted(Call), [a, b, c, d]))
  {
    var kids := [a, b, c, d];
    forall k | k in kids ensures Wf(k) {
      var i :| 0 <= i < 4 && kids[i] == k;
    }
  }

  lemma {:induction false} EncodeFour(a: Expr, b: Expr, c: Expr, d: Expr)
    ensures EncodeAll([a, b, c, d]) == Encode(a) + (Encode(b) + (Encode(c) + Encode(d)))
  {
    var es := [a, b, c, d];
    assert es[1..] == [b, c, d] && [b, c, d][1..] == [c, d] && [c, d][1..] == [d] && [d][1..] == [];
    assert EncodeAll([d]) == Encode(d) + EncodeAll([]) == Encode(d);
    assert EncodeAll([c, d]) == Encode(c) + EncodeAll([d]);
    assert EncodeAll([b, c, d]) == Encode(b) + EncodeAll([c, d]);
  }

  lemma {:induction false} CallLayout(h: Token, l1: Expr, l2: Expr, start: Token, op: Token, rest: Code, bin: Code)
    requires l1.Leaf? && l2.Leaf?
    ensures [h] + (Encode(l1) + (Encode(l2) + ([start, op] + rest + bin)) + [])
         == [h, Lit(l1.v), Lit(l2.v), start, op] + (rest + bin)
  {
  }

  lemma {:induction false} FlattenConcat(a: seq<Code>, b: seq<Code>)
    ensures Flatten(a + b) == Flatten(a) + Flatten(b)
  {
    if a == [] {
      assert a + b == b;
    } else {
      FlattenConcat(a[1..], b);
      assert (a + b)[0] == a[0] && (a + b)[1..] == a[1..] + b;
      Regroup(a[0], Flatten(a[1..]), Flatten(b));
    }
  }

  /** No complete expression is a proper prefix of another. */
  lemma {:induction false} NoPrefix(c: Code, extra: Code)
    requires extra != []
    ensures !(Complete(c) && Complete(c + extra))
  {
    if Complete(c) && Complete(c + extra) {
      CompleteIffEncoding(c);
      CompleteIffEncoding(c + extra);
      Injective(TreeOf(c), TreeOf(c + extra));
    }
  }

  function Copies(c: Code, n: nat): (cs: seq<Code>)
    ensures |cs| == n && forall i | 0 <= i < n :: cs[i] == c
  {
    seq(n, _ => c)
  }

  /** The count that a builder states is forced. Without a policy it must be the number of
      operands; with one, the policy token stands for all units beyond the operands, and there
      must be at least one. Any other count leaves an array that is not one complete expression. */
  lemma {:induction false} CountForced(p: Plan)
    requires InputsComplete(p) && p.rtype.Done?
    ensures Complete(Emit(p).value) <==>
      if p.part.Some? && p.part.value.policy.Some? then p.declared + Extra(p) > |p.wire| else p.declared == |p.wire|
  {
    var units := p.declared + Extra(p);
    if units < |p.wire| {
      CountTooSmall(p);
    } else if p.part.Some? {
      if p.part.value.policy.Some? <==> units > |p.wire| {
        PolicyFits(p);
      } else {
        PolicyMisfits(p);
      }
    } else if p.declared == |p.wire| {
      EmitClosed(p);
    } else {
      CountTooLarge(p);
    }
  }

  /** The policy token takes up the units beyond the operands. */
  lemma {:induction false} PolicyFits(p: Plan)
    requires InputsComplete(p) && p.rtype.Done? && p.part.Some? && p.declared + Extra(p) >= |p.wire|
    requires p.part.value.policy.Some? <==> p.declared + Extra(p) > |p.wire|
    ensures Complete(Emit(p).value)
  {
    var extra := if p.part.value.policy.Some? then p.declared + Extra(p) - |p.wire| else 1;
    var q := p.(declared := |p.wire|, part := Some(p.part.value.(extra := extra)));
    EmitClosed(q);
  }

  /** The policy token comes where the units are used up, or has none. */
  lemma {:induction false} PolicyMisfits(p: Plan)
    requires InputsComplete(p) && p.rtype.Done? && p.part.Some? && p.declared + Extra(p) >= |p.wire|
    requires p.part.value.policy.Some? <==> p.declared + Extra(p) == |p.wire|
    ensures !Complete(Emit(p).value)
  {
    var kids := [Leaf(OpToken(p).v)] + Trees(p.wire);
    var front := [Leaf(RType(TypeCode(p.rtype.value))), Leaf(Int(p.sys))];
    var vop := [Start(p)] + (EncodeAll(kids) + (PolicyCode(p) + p.bin));
    OperandCodes(p, kids);
    OperationFails(p, kids);
    assert DecodeKids(Some(2), vop) == Fail;
    KidsThen(front, 4, vop);
    DecodeOpened(Header(Call, 5), EncodeAll(front) + vop, Fail);
    CallArray(p, front, kids);
  }

  lemma {:induction false} OperandCodes(p: Plan, kids: seq<Expr>)
    requires InputsComplete(p) && kids == [Leaf(OpToken(p).v)] + Trees(p.wire)
    ensures AllExpr(kids) && EncodeAll(kids) == [OpToken(p)] + Flatten(p.wire)
  {
    assert kids[1..] == Trees(p.wire);
    FlattenTrees(p.wire);
  }

  lemma {:induction false} OperationFails(p: Plan, kids: seq<Expr>)
    requires InputsComplete(p) && AllExpr(kids) && |kids| == |p.wire| + 1
    requires p.part.Some? && p.declared + Extra(p) >= |p.wire|
    requires p.part.value.policy.Some? <==> p.declared + Extra(p) == |p.wire|
    ensures Decode([Start(p)] + (EncodeAll(kids) + (PolicyCode(p) + p.bin))) == Fail
  {
    var units, rest := p.declared + Extra(p), PolicyCode(p) + p.bin;
    KidsThen(kids, 1 + units, rest);
    assert kids + [] == kids;
    DecodeOpened(Start(p), EncodeAll(kids) + rest, Ok((kids, Some(units - |p.wire|)), rest));
  }

  lemma {:induction false} CallArray(p: Plan, front: seq<Expr>, kids: seq<Expr>)
    requires p.rtype.Done? && front == [Leaf(RType(TypeCode(p.rtype.value))), Leaf(Int(p.sys))]
    requires EncodeAll(kids) == [OpToken(p)] + Flatten(p.wire)
    ensures Emit(p).value
         == [Header(Call, 5)] + (EncodeAll(front) + ([Start(p)] + (EncodeAll(kids) + (PolicyCode(p) + p.bin))))
  {
    assert EncodeAll(front) == [Lit(RType(TypeCode(p.rtype.value))), Lit(Int(p.sys))] by {
      assert front[1..] == [Leaf(Int(p.sys))] && [Leaf(Int(p.sys))][1..] == [];
      assert EncodeAll(front[1..]) == [Lit(Int(p.sys))];
    }
  }

  lemma {:induction false} CountTooSmall(p: Plan)
    requires InputsComplete(p) && p.rtype.Done? && p.declared + Extra(p) < |p.wire|
    ensures !Complete(Emit(p).value)
  {
    var d := p.declared + Extra(p);
    var q := p.(declared := d, part := None, wire := p.wire[..d], bin := p.wire[d]);
    var rest := Flatten(p.wire[d + 1..]);
    var more := rest + PolicyCode(p) + p.bin;
    WireSplit(p.wire, d);
    FourParts(Flatten(q.wire), q.bin, rest, PolicyCode(p), p.bin);
    SameHead(q, p, more);
    EmitClosed(q);
    NoPrefix(Emit(q).value, more);
  }

  lemma {:induction false} WireSplit(wire: seq<Code>, d: nat)
    requires d < |wire|
    ensures Flatten(wire) == Flatten(wire[..d]) + (wire[d] + Flatten(wire[d + 1..]))
  {
    assert wire == wire[..d] + wire[d..];
    FlattenConcat(wire[..d], wire[d..]);
    assert wire[d..][1..] == wire[d + 1..];
  }

  lemma {:induction false} FourParts(a: Code, b: Code, c: Code, d: Code, e: Code)
    ensures a + (b + c) + d + e == a + (b + (c + d + e))
  {
  }

  lemma {:induction false} CountTooLarge(p: Plan)
    requires InputsComplete(p) && p.rtype.Done? && p.part.None? && p.declared > |p.wire|
    ensures !Complete(Emit(p).value)
  {
    var more := [p.bin] + Copies(p.bin, p.declared - |p.wire| - 1);
    var q := p.(wire := p.wire + more);
    var rest := Flatten(more[1..]);
    assert Flatten(q.wire) == Flatten(p.wire) + (p.bin + rest) by {
      FlattenConcat(p.wire, more);
    }
    assert Flatten(q.wire) + [] + q.bin == Flatten(p.wire) + (p.bin + (rest + q.bin));
    SameHead(p, q, rest + q.bin);
    EmitClosed(q);
    NoPrefix(Emit(p).value, rest + q.bin);
  }

  lemma {:induction false} SameHead(p: Plan, q: Plan, extra: Code)
    requires p.rtype.Done? && p.part.None?
    requires q.rtype == p.rtype && q.sys == p.sys && Start(q) == Start(p) && q.op == p.op
    requires Flatten(q.wire) + PolicyCode(q) + q.bin == Flatten(p.wire) + (p.bin + extra)
    ensures Emit(q).value == Emit(p).value + extra
  {
    var head := [Header(Call, 5), Lit(RType(TypeCode(p.rtype.value))), Lit(Int(p.sys)), Start(p), OpToken(p)];
    assert Flatten(p.wire) + [] == Flatten(p.wire);
    Regroup(Flatten(p.wire), p.bin, extra);
    Regroup(head, Flatten(p.wire) + p.bin, extra);
  }

  // Builder closure, family by family.

  /** The stated count is the number of operands before the bin (a policy token apart), and with
      complete operands the array is the CALL tree, or the builder throws. */
  predicate Closed(p: Plan) {
    && CountOk(p)
    && (p.rtype.Done? <==> Emit(p).Done?)
    && (InputsComplete(p) && p.rtype.Done? ==>
          Complete(Emit(p).value) && TreeOf(Emit(p).value) == CallTree(p))
  }

  lemma {:induction false} ClosedPlan(p: Plan)
    requires CountOk(p)
    ensures Closed(p)
  {
    if InputsComplete(p) && p.rtype.Done? { EmitClosed(p); }
  }

  lemma {:induction false} ListReadersClosed(b: ListReader)
    ensures Closed(ListReaderPlan(b))
  {
    ClosedPlan(ListReaderPlan(b));
  }

  lemma {:induction false} ListModifiersClosed(b: ListModifier)
    ensures Closed(ListModifierPlan(b))
  {
    ClosedPlan(ListModifierPlan(b));
  }

  lemma {:induction false} MapReadersClosed(b: MapReader)
    ensures Closed(MapReaderPlan(b))
  {
    ClosedPlan(MapReaderPlan(b));
  }

  lemma {:induction false} MapModifiersClosed(b: MapModifier)
    ensures Closed(MapModifierPlan(b))
  {
    ClosedPlan(MapModifierPlan(b));
  }

  lemma {:induction false} BitModifiersClosed(b: BitModifier)
    ensures Closed(BitModifierPlan(b))
  {
    ClosedPlan(BitModifierPlan(b));
  }

  lemma {:induction false} BitReadersClosed(b: BitReader)
    ensures Closed(BitReaderPlan(b))
  {
    ClosedPlan(BitReaderPlan(b));
  }

  lemma {:induction false} HllBuildersClosed(b: HllBuilder)
    ensures Closed(HllPlan(b))
  {
    ClosedPlan(HllPlan(b));
  }

  /** What a builder's array means, for any interpretation: the CALL operator applied to the
      return type, the system, the operation on the values of the operands in order, and the
      value of the bin. A null policy means the same as no policy token. */
  lemma {:induction false} BuilderMeaning<V>(i: M.Interp<V>, p: Plan)
    requires CountOk(p) && InputsComplete(p) && p.rtype.Done?
    ensures M.Execute(i, Emit(p).value) == Some(i.node(Call, [
      i.leaf(RType(TypeCode(p.rtype.value))), i.leaf(Int(p.sys)),
      i.operation(p.ctx, [i.leaf(Int(OperationCode(p.op)))] + M.EvalAll(i, Trees(p.wire)),
                  if p.part.Some? then p.part.value.policy else None),
      M.Eval(i, TreeOf(p.bin))]))
  {
    var e := CallTree(p);
    EmitClosed(p);
    M.CompleteArraysEvaluate(i, Emit(p).value);
    var op, operation := Leaf(Int(OperationCode(p.op))), OperationTree(p);
    EvalFour(i, e.kids[0], e.kids[1], operation, TreeOf(p.bin));
    assert M.EvalAll(i, operation.kids) == [M.Eval(i, op)] + M.EvalAll(i, Trees(p.wire)) by {
      assert operation.kids[0] == op && operation.kids[1..] == Trees(p.wire);
    }
    assert M.Eval(i, operation) == M.Apply(i, operation.head, M.EvalAll(i, operation.kids));
    assert M.Eval(i, e) == i.node(Call, M.EvalAll(i, e.kids));
  }

  lemma {:induction false} EvalFour<V>(i: M.Interp<V>, a: Expr, b: Expr, c: Expr, d: Expr)
    ensures M.EvalAll(i, [a, b, c, d]) == [M.Eval(i, a), M.Eval(i, b), M.Eval(i, c), M.Eval(i, d)]
  {
    var es := [a, b, c, d];
    assert es[1..] == [b, c, d] && [b, c, d][1..] == [c, d] && [c, d][1..] == [d] && [d][1..] == [];
    assert M.EvalAll(i, [d]) == [M.Eval(i, d)] + M.EvalAll(i, []);
    assert M.EvalAll(i, [c, d]) == [M.Eval(i, c)] + M.EvalAll(i, [d]);
    assert M.EvalAll(i, [b, c, d]) == [M.Eval(i, b)] + M.EvalAll(i, [c, d]);
  }
}
