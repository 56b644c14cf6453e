/** The head of the array of a list, map, bit or HyperLogLog builder: return type, system and
    operation header. */
module CdtTokens {
  import opened Prelude
  import opened ExpSyntax
  import opened ExpBuilders
  import opened CdtBuilders

  predicate IsOrdinal(k: ReturnKind) { k.RtIndex? || k.RtReverseIndex? || k.RtRank? || k.RtReverseRank? }

  /** What lists can return; maps can also return keys and pairs. */
  predicate Allowed(cdt: Cdt, k: ReturnKind) {
    || IsOrdinal(k) || k.RtCount? || k.RtValue? || k.RtExists?
    || (cdt.MapCdt? && (k.RtKey? || k.RtKeyValue? || k.RtOrderedMap? || k.RtUnorderedMap?))
  }

  /** The type of what comes back: a truth value for EXISTS, a number for COUNT and for one index or
      rank, a map for pairs, the named type for one value or key, and otherwise a list. */
  function Answer(k: ReturnKind, one: bool, named: ExpType): ExpType {
    if k.RtExists? then TBool
    else if k.RtCount? || (one && IsOrdinal(k)) then TInt
    else if k.RtKeyValue? || k.RtOrderedMap? || k.RtUnorderedMap? then TMap
    else if one then named
    else TList
  }

  /** A read is refused if the named type is none, the collection cannot return that, or the type is
      neither auto nor that of what comes back. */
  predicate Accepted(cdt: Cdt, k: ReturnKind, one: bool, named: ExpType) {
    !named.NotAType? && Allowed(cdt, k) && (named == TAuto || named == Answer(k, one, named))
  }

  lemma {:induction false} TypeIsAnswer(cdt: Cdt, rt: ReturnType, isMulti: bool, named: ExpType)
    ensures CdtType(cdt, named, rt, isMulti).Done? <==> Accepted(cdt, rt.kind, !isMulti, named)
    ensures CdtType(cdt, named, rt, isMulti).Done? ==>
      CdtType(cdt, named, rt, isMulti).value == Answer(rt.kind, !isMulti, named)
  {
  }

  /** The first four tokens. */
  predicate HeadIs(code: Code, t: ExpType, sys: System, changes: bool, count: nat, ctx: Option<Context>) {
    && |code| > 4 && code[0] == Header(Call, 5) && code[1] == Lit(RType(TypeCode(t)))
    && code[2] == Lit(Int(SystemCode(sys, changes))) && code[3] == VopStart(count, ctx)
  }

  lemma {:induction false} EmitHead(p: Plan, t: ExpType, sys: System, changes: bool)
    requires p.rtype == Done(t) && p.sys == SystemCode(sys, changes) && CountOk(p)
    ensures HeadIs(Emit(p).value, t, sys, changes, 1 + |p.wire| + Extra(p), p.ctx)
  {
  }

  lemma {:induction false} ContextYields(ctx: Option<Context>, own: ExpType)
    ensures ContextType(ctx, own).Thrown? <==> ctx == Some([])
    ensures ContextType(ctx, own).Done? ==> Yields(ctx, own, ContextType(ctx, own).value)
  {
  }

  // Reads.

  predicate OneOfList(b: ListReader) { b.Size? || b.GetByIndex? || b.GetByRank? }

  function NamedInList(b: ListReader): ExpType { if b.GetByIndex? || b.GetByRank? then b.valueType else TAuto }

  function KindInList(b: ListReader): ReturnKind { if b.Size? then RtCount else b.returnType.kind }

  /** A list read throws exactly when it is refused, and otherwise its array starts with CALL, the
      type of what comes back, the collection system without the modify flag, and the operation header
      with the number of operands. */
  lemma {:induction false} ListReadHead(b: ListReader)
    ensures var p := ListReaderPlan(b);
      && (Emit(p).Done? <==> Accepted(ListCdt, KindInList(b), OneOfList(b), NamedInList(b)))
      && (Emit(p).Done? ==> HeadIs(Emit(p).value, Answer(KindInList(b), OneOfList(b), NamedInList(b)), CallCdt, false,
                                   1 + |p.wire|, b.ctx))
  {
    var p, one := ListReaderPlan(b), OneOfList(b);
    TypeIsAnswer(ListCdt, if b.Size? then COUNT_RETURN else b.returnType, !one, NamedInList(b));
    ListReadPlan(b);
    if p.rtype.Done? { EmitHead(p, p.rtype.value, CallCdt, false); }
  }

  lemma {:induction false} ListReadPlan(b: ListReader)
    ensures var p := ListReaderPlan(b);
      && p.rtype == CdtType(ListCdt, NamedInList(b), if b.Size? then COUNT_RETURN else b.returnType, !OneOfList(b))
      && p.sys == SystemCode(CallCdt, false) && p.part.None? && p.ctx == b.ctx && CountOk(p)
  {
  }

  predicate OneOfMap(b: MapReader) { b.Size? || b.GetByKey? || b.GetByIndex? || b.GetByRank? }

  function NamedInMap(b: MapReader): ExpType {
    if b.GetByKey? || b.GetByIndex? || b.GetByRank? then b.valueType else TAuto
  }

  function KindInMap(b: MapReader): ReturnKind { if b.Size? then RtCount else b.returnType.kind }

  lemma {:induction false} MapReadHead(b: MapReader)
    ensures var p := MapReaderPlan(b);
      && (Emit(p).Done? <==> Accepted(MapCdt, KindInMap(b), OneOfMap(b), NamedInMap(b)))
      && (Emit(p).Done? ==> HeadIs(Emit(p).value, Answer(KindInMap(b), OneOfMap(b), NamedInMap(b)), CallCdt, false,
                                   1 + |p.wire|, b.ctx))
  {
    var p, one := MapReaderPlan(b), OneOfMap(b);
    TypeIsAnswer(MapCdt, if b.Size? then COUNT_RETURN else b.returnType, !one, NamedInMap(b));
    MapReadPlan(b);
    if p.rtype.Done? { EmitHead(p, p.rtype.value, CallCdt, false); }
  }

  lemma {:induction false} MapReadPlan(b: MapReader)
    ensures var p := MapReaderPlan(b);
      && p.rtype == CdtType(MapCdt, NamedInMap(b), if b.Size? then COUNT_RETURN else b.returnType, !OneOfMap(b))
      && p.sys == SystemCode(CallCdt, false) && p.part.None? && p.ctx == b.ctx && CountOk(p)
  {
  }

  // Modifications.

  /** The codes of lib/cdt_context.js for items of lists and of maps. */
  predicate ListItem(c: ContextItem) { c.code in {0x10, 0x11, 0x13} }

  predicate MapItem(c: ContextItem) { c.code in {0x20, 0x21, 0x22, 0x23} }

  /** What a modification yields: the collection itself without a context, otherwise the collection
      that the innermost item of the context is in. */
  predicate Yields(ctx: Option<Context>, own: ExpType, t: ExpType) {
    if ctx.None? then t == own
    else ctx.value != []
         && (ListItem(ctx.value[|ctx.value| - 1]) ==> t == TList) && (MapItem(ctx.value[|ctx.value| - 1]) ==> t == TMap)
  }

  predicate TakesListPolicy(b: ListModifier) {
    b.Append? || b.AppendItems? || b.Insert? || b.InsertItems? || b.Increment? || b.Set?
  }

  /** How many units of the count a policy stands for. */
  function ListPolicyUnits(b: ListModifier): nat {
    if (b.Append? || b.AppendItems? || b.Increment?) && b.policy.Some? then 2
    else if (b.Insert? || b.InsertItems? || b.Set?) && b.policy.Some? then 1
    else 0
  }

  /** A list modification throws only for an empty context, and otherwise its array starts with CALL,
      the collection it yields, the collection system with the modify flag, and the operation header
      with the number of operands and the units of its policy. */
  lemma {:induction false} ListModifyHead(b: ListModifier)
    ensures var p := ListModifierPlan(b);
      && (Emit(p).Thrown? <==> b.ctx == Some([]))
      && (Emit(p).Done? ==>
            && Yields(b.ctx, TList, p.rtype.value)
            && HeadIs(Emit(p).value, p.rtype.value, CallCdt, true, 1 + |p.wire| + ListPolicyUnits(b), b.ctx))
    ensures var p := ListModifierPlan(b);
      PolicyCode(p) == if TakesListPolicy(b) then [CrMod(ListCdt, b.policy)] else []
  {
    var p := ListModifierPlan(b);
    ListModifyPlan(b);
    ContextYields(b.ctx, TList);
    if p.rtype.Done? { EmitHead(p, p.rtype.value, CallCdt, true); }
  }

  lemma {:induction false} ListModifyPlan(b: ListModifier)
    ensures var p := ListModifierPlan(b);
      && p.rtype == ContextType(b.ctx, TList) && p.sys == SystemCode(CallCdt, true) && p.ctx == b.ctx && CountOk(p)
      && Extra(p) == ListPolicyUnits(b)
      && PolicyCode(p) == if TakesListPolicy(b) then [CrMod(ListCdt, b.policy)] else []
  {
  }

  predicate TakesMapPolicy(b: MapModifier) { b.Put? || b.PutItems? || b.Increment? }

  function MapPolicyUnits(b: MapModifier): nat {
    if (b.Put? || b.PutItems?) && b.policy.Some? then 2
    else if b.Increment? && b.policy.Some? then 1
    else 0
  }

  lemma {:induction false} MapModifyHead(b: MapModifier)
    ensures var p := MapModifierPlan(b);
      && (Emit(p).Thrown? <==> b.ctx == Some([]))
      && (Emit(p).Done? ==>
            && Yields(b.ctx, TMap, p.rtype.value)
            && HeadIs(Emit(p).value, p.rtype.value, CallCdt, true, 1 + |p.wire| + MapPolicyUnits(b), b.ctx))
    ensures var p := MapModifierPlan(b);
      PolicyCode(p) == if TakesMapPolicy(b) then [CrMod(MapCdt, b.policy)] else []
  {
    var p := MapModifierPlan(b);
    MapModifyPlan(b);
    ContextYields(b.ctx, TMap);
    if p.rtype.Done? { EmitHead(p, p.rtype.value, CallCdt, true); }
  }

  lemma {:induction false} MapModifyPlan(b: MapModifier)
    ensures var p := MapModifierPlan(b);
      && p.rtype == ContextType(b.ctx, TMap) && p.sys == SystemCode(CallCdt, true) && p.ctx == b.ctx && CountOk(p)
      && Extra(p) == MapPolicyUnits(b)
      && PolicyCode(p) == if TakesMapPolicy(b) then [CrMod(MapCdt, b.policy)] else []
  {
  }

  // Bits and HyperLogLog.

  /** Bit modifications yield a blob; of the bit reads only `get` does, the others yield a number. */
  lemma {:induction false} BitHead(b: BitModifier, r: BitReader)
    ensures var p := BitModifierPlan(b);
      Emit(p).Done? && HeadIs(Emit(p).value, TBlob, CallBits, true, 1 + |p.wire|, None)
    ensures var p := BitReaderPlan(r);
      Emit(p).Done? && HeadIs(Emit(p).value, if r.Get? then TBlob else TInt, CallBits, false, 1 + |p.wire|, None)
    ensures r.GetInt? ==> BitReaderPlan(r).wire == [r.bitOffset, r.bitSize, [Lit(Int(Num(if r.sign then 1 else 0)))]]
  {
    BitModifyPlan(b);
    BitReadPlan(r);
    EmitHead(BitModifierPlan(b), TBlob, CallBits, true);
    EmitHead(BitReaderPlan(r), if r.Get? then TBlob else TInt, CallBits, false);
  }

  lemma {:induction false} BitModifyPlan(b: BitModifier)
    ensures var p := BitModifierPlan(b);
      p.rtype == Done(TBlob) && p.sys == SystemCode(CallBits, true) && p.part.None? && p.ctx.None? && CountOk(p)
  {
  }

  lemma {:induction false} BitReadPlan(r: BitReader)
    ensures var p := BitReaderPlan(r);
      && p.rtype == Done(if r.Get? then TBlob else TInt) && p.sys == SystemCode(CallBits, false)
      && p.part.None? && p.ctx.None? && CountOk(p)
  {
  }

  predicate ModifiesHll(b: HllBuilder) { b.InitMH? || b.Init? || b.AddMH? || b.Add? || b.Update? }

  /** HyperLogLog modifications and unions yield a HyperLogLog value, a similarity is a fraction, a
      description a list, and the other reads are numbers. */
  lemma {:induction false} HllHead(b: HllBuilder)
    ensures var p := HllPlan(b);
      var t := if ModifiesHll(b) || b.GetUnion? then THll
               else if b.GetSimilarity? then TFloat else if b.Describe? then TList else TInt;
      Emit(p).Done? && HeadIs(Emit(p).value, t, CallHll, ModifiesHll(b), 1 + |p.wire|, None)
  {
  }
}
