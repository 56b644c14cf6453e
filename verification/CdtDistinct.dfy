/** What the array of a builder determines: the call that made it, up to a few calls that are meant
    to be the same. */
module CdtDistinct {
  import opened Prelude
  import opened ExpSyntax
  import opened ExpCodec
  import opened ExpBuilders
  import opened CdtBuilders

  /** What an array says. */
  datatype Message = Message(rtype: ExpType, sys: Number, part: Option<PolicyPart>, ctx: Option<Context>,
                             op: OpCode, wire: seq<Code>, bin: Code)

  function MessageOf(p: Plan): Message
    requires p.rtype.Done?
  {
    var part := if p.part.Some? then Some(PolicyPart(p.part.value.cdt, p.part.value.policy, Extra(p))) else None;
    Message(p.rtype.value, p.sys, part, p.ctx, p.op, p.wire, p.bin)
  }

  predicate Sound(p: Plan) { CountOk(p) && InputsComplete(p) && p.rtype.Done? }

  /** Two builders yield the same array if and only if they say the same. */
  lemma {:induction false} EmitInjective(p: Plan, q: Plan)
    requires Sound(p) && Sound(q)
    ensures Emit(p) == Emit(q) <==> MessageOf(p) == MessageOf(q)
  {
    if Emit(p) == Emit(q) {
      EmitClosed(p);
      EmitClosed(q);
      var a, b := CallTree(p).kids, CallTree(q).kids;
      assert a == b;
      assert a[0] == b[0] && a[1] == b[1] && a[2] == b[2] && a[3] == b[3];
      SameTree(p.bin, q.bin);
      var x, y := OperationTree(p).kids, OperationTree(q).kids;
      assert x == y && x[0] == y[0] && x[1..] == Trees(p.wire) && y[1..] == Trees(q.wire);
      SameTrees(p.wire, q.wire);
    }
  }

  lemma {:induction false} SameTree(a: Code, b: Code)
    requires Complete(a) && Complete(b) && TreeOf(a) == TreeOf(b)
    ensures a == b
  {
    CompleteIffEncoding(a);
    CompleteIffEncoding(b);
  }

  lemma {:induction false} SameTrees(a: seq<Code>, b: seq<Code>)
    requires AllComplete(a) && AllComplete(b) && Trees(a) == Trees(b)
    ensures a == b
  {
    forall i | 0 <= i < |a| ensures a[i] == b[i] {
      assert Trees(a)[i] == Trees(b)[i];
      SameTree(a[i], b[i]);
    }
  }

  // Reading parameters back.

  function AsReturn(c: Code): ReturnType {
    if |c| == 1 && c[0].Lit? && c[0].v.Int? && c[0].v.i.ReturnCode? then c[0].v.i.r else NO_RETURN
  }

  function AsInt(c: Code): int {
    if |c| == 1 && c[0].Lit? && c[0].v.Int? && c[0].v.i.Num? then c[0].v.i.n else 0
  }

  function AsUInt(c: Code): int {
    if |c| == 1 && c[0].Lit? && c[0].v.UInt? && c[0].v.u.Num? then c[0].v.u.n else 0
  }

  function PolicyOf(m: Message): Option<Policy> { if m.part.Some? then m.part.value.policy else None }

  /** Of a bit or HyperLogLog policy only the flags are sent, and no policy sends 0. */
  function FlagsOnly(policy: Option<Policy>): Option<Policy> {
    Some(Policy(0, if policy.Some? then policy.value.flags else 0))
  }

  function FlagsBack(c: Code): Option<Policy> { Some(Policy(0, AsUInt(c))) }

  function HllFlagsBack(c: Code): Option<Policy> { Some(Policy(0, AsInt(c))) }

  // List reads: the value type is sent as worked out.

  function PlainListReader(b: ListReader): ListReader {
    var t := ListReaderPlan(b).rtype;
    if (b.GetByIndex? || b.GetByRank?) && t.Done? then b.(valueType := t.value) else b
  }

  function RecallListReader(m: Message): Option<ListReader> {
    var w, n := m.wire, |m.wire|;
    match m.op
    case SIZE => Some(ListReader.Size(m.bin, m.ctx))
    case GET_ALL_BY_VALUE =>
      if n == 2 then Some(ListReader.GetByValue(m.bin, w[1], AsReturn(w[0]), m.ctx)) else None
    case GET_BY_VALUE_INTERVAL =>
      if n == 3 then Some(ListReader.GetByValueRange(m.bin, w[1], w[2], AsReturn(w[0]), m.ctx)) else None
    case GET_BY_VALUE_LIST =>
      if n == 2 then Some(ListReader.GetByValueList(m.bin, w[1], AsReturn(w[0]), m.ctx)) else None
    case GET_BY_VALUE_REL_RANK_RANGE =>
      if n == 3 then Some(ListReader.GetByRelRankRangeToEnd(m.bin, w[1], w[2], AsReturn(w[0]), m.ctx))
      else if n == 4 then Some(ListReader.GetByRelRankRange(m.bin, w[1], w[2], w[3], AsReturn(w[0]), m.ctx))
      else None
    case GET_BY_INDEX =>
      if n == 2 then Some(ListReader.GetByIndex(m.bin, w[1], m.rtype, AsReturn(w[0]), m.ctx)) else None
    case GET_BY_INDEX_RANGE =>
      if n == 2 then Some(ListReader.GetByIndexRangeToEnd(m.bin, w[1], AsReturn(w[0]), m.ctx))
      else if n == 3 then Some(ListReader.GetByIndexRange(m.bin, w[1], w[2], AsReturn(w[0]), m.ctx))
      else None
    case GET_BY_RANK =>
      if n == 2 then Some(ListReader.GetByRank(m.bin, w[1], m.rtype, AsReturn(w[0]), m.ctx)) else None
    case GET_BY_RANK_RANGE =>
      if n == 2 then Some(ListReader.GetByRankRangeToEnd(m.bin, w[1], AsReturn(w[0]), m.ctx))
      else if n == 3 then Some(ListReader.GetByRankRange(m.bin, w[1], w[2], AsReturn(w[0]), m.ctx))
      else None
    case _ => None
  }

  lemma {:induction false} ListReaderBack(b: ListReader)
    requires ListReaderPlan(b).rtype.Done?
    ensures RecallListReader(MessageOf(ListReaderPlan(b))) == Some(PlainListReader(b))
    ensures ListReaderPlan(PlainListReader(b)) == ListReaderPlan(b)
  {
  }

  /** Two list reads yield the same array if and only if they are the same call, up to naming the
      value type that would be worked out anyway. */
  lemma {:induction false} ListReadersDistinct(b: ListReader, c: ListReader)
    requires Sound(ListReaderPlan(b)) && Sound(ListReaderPlan(c))
    ensures Emit(ListReaderPlan(b)) == Emit(ListReaderPlan(c)) <==> PlainListReader(b) == PlainListReader(c)
  {
    EmitInjective(ListReaderPlan(b), ListReaderPlan(c));
    ListReaderBack(b);
    ListReaderBack(c);
  }

  // List modifications: the return type is ignored.

  predicate IsRemoval(b: ListModifier) {
    !(b.Append? || b.AppendItems? || b.Insert? || b.InsertItems? || b.Increment? || b.Set? || b.Clear? || b.Sort?)
  }

  function PlainListModifier(b: ListModifier): ListModifier {
    if IsRemoval(b) then b.(returnType := NO_RETURN) else b
  }

  function RecallListModifier(m: Message): Option<ListModifier> {
    var w, n, policy := m.wire, |m.wire|, PolicyOf(m);
    match m.op
    case APPEND => if n == 1 then Some(ListModifier.Append(m.bin, w[0], policy, m.ctx)) else None
    case APPEND_ITEMS => if n == 1 then Some(ListModifier.AppendItems(m.bin, w[0], policy, m.ctx)) else None
    case INSERT => if n == 2 then Some(ListModifier.Insert(m.bin, w[1], w[0], policy, m.ctx)) else None
    case INSERT_ITEMS => if n == 2 then Some(ListModifier.InsertItems(m.bin, w[1], w[0], policy, m.ctx)) else None
    case INCREMENT => if n == 2 then Some(ListModifier.Increment(m.bin, w[1], w[0], policy, m.ctx)) else None
    case SET => if n == 2 then Some(ListModifier.Set(m.bin, w[1], w[0], policy, m.ctx)) else None
    case CLEAR => Some(ListModifier.Clear(m.bin, m.ctx))
    case SORT => if n == 1 then Some(ListModifier.Sort(m.bin, AsInt(w[0]), m.ctx)) else None
    case REMOVE_ALL_BY_VALUE =>
      if n == 2 then Some(ListModifier.RemoveByValue(m.bin, w[1], m.ctx, NO_RETURN)) else None
    case REMOVE_BY_VALUE_LIST =>
      if n == 2 then Some(ListModifier.RemoveByValueList(m.bin, w[1], m.ctx, NO_RETURN)) else None
    case REMOVE_BY_VALUE_INTERVAL =>
      if n == 3 then Some(ListModifier.RemoveByValueRange(m.bin, w[2], w[1], m.ctx, NO_RETURN)) else None
    case REMOVE_BY_VALUE_REL_RANK_RANGE =>
      if n == 3 then Some(ListModifier.RemoveByRelRankRangeToEnd(m.bin, w[2], w[1], m.ctx, NO_RETURN))
      else if n == 4 then Some(ListModifier.RemoveByRelRankRange(m.bin, w[3], w[2], w[1], m.ctx, NO_RETURN))
      else None
    case REMOVE_BY_INDEX =>
      if n == 2 then Some(ListModifier.RemoveByIndex(m.bin, w[1], m.ctx, NO_RETURN)) else None
    case REMOVE_BY_INDEX_RANGE =>
      if n == 2 then Some(ListModifier.RemoveByIndexRangeToEnd(m.bin, w[1], m.ctx, NO_RETURN))
      else if n == 3 then Some(ListModifier.RemoveByIndexRange(m.bin, w[2], w[1], m.ctx, NO_RETURN))
      else None
    case REMOVE_BY_RANK =>
      if n == 2 then Some(ListModifier.RemoveByRank(m.bin, w[1], m.ctx, NO_RETURN)) else None
    case REMOVE_BY_RANK_RANGE =>
      if n == 2 then Some(ListModifier.RemoveByRankRangeToEnd(m.bin, w[1], m.ctx, NO_RETURN))
      else if n == 3 then Some(ListModifier.RemoveByRankRange(m.bin, w[2], w[1], m.ctx, NO_RETURN))
      else None
    case _ => None
  }

  lemma {:induction false} ListModifierBack(b: ListModifier)
    requires ListModifierPlan(b).rtype.Done?
    ensures RecallListModifier(MessageOf(ListModifierPlan(b))) == Some(PlainListModifier(b))
  {
  }

  /** Two list modifications yield the same array if and only if they are the same call, up to the
      return type of removals. */
  lemma {:induction false} ListModifiersDistinct(b: ListModifier, c: ListModifier)
    requires Sound(ListModifierPlan(b)) && Sound(ListModifierPlan(c))
    ensures Emit(ListModifierPlan(b)) == Emit(ListModifierPlan(c)) <==> PlainListModifier(b) == PlainListModifier(c)
  {
    EmitInjective(ListModifierPlan(b), ListModifierPlan(c));
    ListModifierBack(b);
    ListModifierBack(c);
    ListModifierSame(b);
    ListModifierSame(c);
  }

  /** A removal from a list yields the same array, or throws the same error, whatever the return
      type; so what it asks for is what was requested if and only if that was NONE. */
  lemma {:induction false} ReturnTypeIgnored(b: ListModifier, rt: ReturnType)
    requires IsRemoval(b)
    ensures Emit(ListModifierPlan(b.(returnType := rt))) == Emit(ListModifierPlan(b))
    ensures ListModifierPlan(b).wire != [] && AsReturn(ListModifierPlan(b).wire[0]) == NO_RETURN
    ensures ListModifierPlan(b).wire[0] == Ret(b.returnType) <==> b.returnType == NO_RETURN
  {
    var c := b.(returnType := rt);
    assert PlainListModifier(c) == PlainListModifier(b);
    ListModifierSame(b);
    ListModifierSame(c);
  }

  lemma {:induction false} ListModifierSame(b: ListModifier)
    ensures ListModifierPlan(PlainListModifier(b)) == ListModifierPlan(b)
  {
  }

  // Map modifications.

  function RecallMapModifier(m: Message): Option<MapModifier> {
    var w, n, policy := m.wire, |m.wire|, PolicyOf(m);
    match m.op
    case PUT => if n == 2 then Some(MapModifier.Put(m.bin, w[1], w[0], policy, m.ctx)) else None
    case PUT_ITEMS => if n == 1 then Some(MapModifier.PutItems(m.bin, w[0], policy, m.ctx)) else None
    case INCREMENT => if n == 2 then Some(MapModifier.Increment(m.bin, w[1], w[0], policy, m.ctx)) else None
    case CLEAR => Some(MapModifier.Clear(m.bin, m.ctx))
    case REMOVE_BY_KEY =>
      if n == 2 then Some(MapModifier.RemoveByKey(m.bin, w[1], m.ctx, AsReturn(w[0]))) else None
    case REMOVE_BY_KEY_LIST =>
      if n == 2 then Some(MapModifier.RemoveByKeyList(m.bin, w[1], m.ctx, AsReturn(w[0]))) else None
    case REMOVE_BY_KEY_INTERVAL =>
      if n == 3 then Some(MapModifier.RemoveByKeyRange(m.bin, w[2], w[1], m.ctx, AsReturn(w[0]))) else None
    case REMOVE_BY_KEY_REL_INDEX_RANGE =>
      if n == 3 then Some(MapModifier.RemoveByKeyRelIndexRangeToEnd(m.bin, w[2], w[1], m.ctx, AsReturn(w[0])))
      else if n == 4 then Some(MapModifier.RemoveByKeyRelIndexRange(m.bin, w[3], w[2], w[1], m.ctx, AsReturn(w[0])))
      else None
    case REMOVE_ALL_BY_VALUE =>
      if n == 2 then Some(MapModifier.RemoveByValue(m.bin, w[1], m.ctx, AsReturn(w[0]))) else None
    case REMOVE_BY_VALUE_LIST =>
      if n == 2 then Some(MapModifier.RemoveByValueList(m.bin, w[1], m.ctx, AsReturn(w[0]))) else None
    case REMOVE_BY_VALUE_INTERVAL =>
      if n == 3 then Some(MapModifier.RemoveByValueRange(m.bin, w[2], w[1], m.ctx, AsReturn(w[0]))) else None
    case REMOVE_BY_VALUE_REL_RANK_RANGE =>
      if n == 3 then Some(MapModifier.RemoveByValueRelRankRangeToEnd(m.bin, w[2], w[1], m.ctx, AsReturn(w[0])))
      else if n == 4 then Some(MapModifier.RemoveByValueRelRankRange(m.bin, w[3], w[2], w[1], m.ctx, AsReturn(w[0])))
      else None
    case REMOVE_BY_INDEX =>
      if n == 2 then Some(MapModifier.RemoveByIndex(m.bin, w[1], m.ctx, AsReturn(w[0]))) else None
    case REMOVE_BY_INDEX_RANGE =>
      if n == 2 then Some(MapModifier.RemoveByIndexRangeToEnd(m.bin, w[1], m.ctx, AsReturn(w[0])))
      else if n == 3 then Some(MapModifier.RemoveByIndexRange(m.bin, w[2], w[1], m.ctx, AsReturn(w[0])))
      else None
    case REMOVE_BY_RANK =>
      if n == 2 then Some(MapModifier.RemoveByRank(m.bin, w[1], m.ctx, AsReturn(w[0]))) else None
    case REMOVE_BY_RANK_RANGE =>
      if n == 2 then Some(MapModifier.RemoveByRankRangeToEnd(m.bin, w[1], m.ctx, AsReturn(w[0])))
      else if n == 3 then Some(MapModifier.RemoveByRankRange(m.bin, w[2], w[1], m.ctx, AsReturn(w[0])))
      else None
    case _ => None
  }

  lemma {:induction false} MapModifierBack(b: MapModifier)
    requires MapModifierPlan(b).rtype.Done?
    ensures RecallMapModifier(MessageOf(MapModifierPlan(b))) == Some(b)
  {
  }

  /** Two map modifications yield the same array if and only if they are the same call. */
  lemma {:induction false} MapModifiersDistinct(b: MapModifier, c: MapModifier)
    requires Sound(MapModifierPlan(b)) && Sound(MapModifierPlan(c))
    ensures Emit(MapModifierPlan(b)) == Emit(MapModifierPlan(c)) <==> b == c
  {
    EmitInjective(MapModifierPlan(b), MapModifierPlan(c));
    MapModifierBack(b);
    MapModifierBack(c);
  }

  // Map reads: the value type is sent as worked out.

  function PlainMapReader(b: MapReader): MapReader {
    var t := MapReaderPlan(b).rtype;
    if (b.GetByKey? || b.GetByIndex? || b.GetByRank?) && t.Done? then b.(valueType := t.value) else b
  }

  function RecallMapReader(m: Message): Option<MapReader> {
    var w, n := m.wire, |m.wire|;
    match m.op
    case SIZE => Some(MapReader.Size(m.bin, m.ctx))
    case GET_BY_KEY =>
      if n == 2 then Some(MapReader.GetByKey(m.bin, w[1], m.rtype, AsReturn(w[0]), m.ctx)) else None
    case GET_BY_KEY_INTERVAL =>
      if n == 3 then Some(MapReader.GetByKeyRange(m.bin, w[2], w[1], AsReturn(w[0]), m.ctx)) else None
    case GET_BY_KEY_LIST =>
      if n == 2 then Some(MapReader.GetByKeyList(m.bin, w[1], AsReturn(w[0]), m.ctx)) else None
    case GET_BY_KEY_REL_INDEX_RANGE =>
      if n == 3 then Some(MapReader.GetByKeyRelIndexRangeToEnd(m.bin, w[2], w[1], AsReturn(w[0]), m.ctx))
      else if n == 4 then Some(MapReader.GetByKeyRelIndexRange(m.bin, w[3], w[2], w[1], AsReturn(w[0]), m.ctx))
      else None
    case GET_ALL_BY_VALUE =>
      if n == 2 then Some(MapReader.GetByValue(m.bin, w[1], AsReturn(w[0]), m.ctx)) else None
    case GET_BY_VALUE_INTERVAL =>
      if n == 3 then Some(MapReader.GetByValueRange(m.bin, w[2], w[1], AsReturn(w[0]), m.ctx)) else None
    case GET_BY_VALUE_LIST =>
      if n == 2 then Some(MapReader.GetByValueList(m.bin, w[1], AsReturn(w[0]), m.ctx)) else None
    case GET_BY_VALUE_REL_RANK_RANGE =>
      if n == 3 then Some(MapReader.GetByValueRelRankRangeToEnd(m.bin, w[2], w[1], AsReturn(w[0]), m.ctx))
      else if n == 4 then Some(MapReader.GetByValueRelRankRange(m.bin, w[3], w[2], w[1], AsReturn(w[0]), m.ctx))
      else None
    case GET_BY_INDEX =>
      if n == 2 then Some(MapReader.GetByIndex(m.bin, w[1], m.rtype, AsReturn(w[0]), m.ctx)) else None
    case GET_BY_INDEX_RANGE =>
      if n == 2 then Some(MapReader.GetByIndexRangeToEnd(m.bin, w[1], AsReturn(w[0]), m.ctx))
      else if n == 3 then Some(MapReader.GetByIndexRange(m.bin, w[2], w[1], AsReturn(w[0]), m.ctx))
      else None
    case GET_BY_RANK =>
      if n == 2 then Some(MapReader.GetByRank(m.bin, w[1], m.rtype, AsReturn(w[0]), m.ctx)) else None
    case GET_BY_RANK_RANGE =>
      if n == 2 then Some(MapReader.GetByRankRangeToEnd(m.bin, w[1], AsReturn(w[0]), m.ctx))
      else if n == 3 then Some(MapReader.GetByRankRange(m.bin, w[2], w[1], AsReturn(w[0]), m.ctx))
      else None
    case _ => None
  }

  lemma {:induction false} MapReaderBack(b: MapReader)
    requires MapReaderPlan(b).rtype.Done?
    ensures RecallMapReader(MessageOf(MapReaderPlan(b))) == Some(PlainMapReader(b))
  {
  }

  lemma {:induction false} MapReaderSame(b: MapReader)
    ensures MapReaderPlan(PlainMapReader(b)) == MapReaderPlan(b)
  {
  }

  /** Two map reads yield the same array if and only if they are the same call, up to naming the
      value type that would be worked out anyway. */
  lemma {:induction false} MapReadersDistinct(b: MapReader, c: MapReader)
    requires Sound(MapReaderPlan(b)) && Sound(MapReaderPlan(c))
    ensures Emit(MapReaderPlan(b)) == Emit(MapReaderPlan(c)) <==> PlainMapReader(b) == PlainMapReader(c)
  {
    EmitInjective(MapReaderPlan(b), MapReaderPlan(c));
    MapReaderBack(b);
    MapReaderBack(c);
    MapReaderSame(b);
    MapReaderSame(c);
  }

  // Bit operations: of a policy only the flags are sent.

  function PlainBitModifier(b: BitModifier): BitModifier { b.(policy := FlagsOnly(b.policy)) }

  function RecallBitModifier(m: Message): Option<BitModifier> {
    var w, n := m.wire, |m.wire|;
    match m.op
    case RESIZE => if n == 3 then Some(BitModifier.ReSize(m.bin, AsUInt(w[2]), w[0], FlagsBack(w[1]))) else None
    case INSERT => if n == 3 then Some(BitModifier.Insert(m.bin, w[1], w[0], FlagsBack(w[2]))) else None
    case REMOVE => if n == 3 then Some(BitModifier.Remove(m.bin, w[1], w[0], FlagsBack(w[2]))) else None
    case SET => if n == 4 then Some(BitModifier.Set(m.bin, w[2], w[1], w[0], FlagsBack(w[3]))) else None
    case OR => if n == 4 then Some(BitModifier.Or(m.bin, w[2], w[1], w[0], FlagsBack(w[3]))) else None
    case XOR => if n == 4 then Some(BitModifier.Xor(m.bin, w[2], w[1], w[0], FlagsBack(w[3]))) else None
    case AND => if n == 4 then Some(BitModifier.And(m.bin, w[2], w[1], w[0], FlagsBack(w[3]))) else None
    case NOT => if n == 3 then Some(BitModifier.Not(m.bin, w[1], w[0], FlagsBack(w[2]))) else None
    case LSHIFT => if n == 4 then Some(BitModifier.LShift(m.bin, w[2], w[1], w[0], FlagsBack(w[3]))) else None
    case RSHIFT => if n == 4 then Some(BitModifier.RShift(m.bin, w[2], w[1], w[0], FlagsBack(w[3]))) else None
    case ADD =>
      if n == 5 then Some(BitModifier.Add(m.bin, AsUInt(w[4]), w[2], w[1], w[0], FlagsBack(w[3]))) else None
    case SUBTRACT =>
      if n == 5 then Some(BitModifier.Subtract(m.bin, AsUInt(w[4]), w[2], w[1], w[0], FlagsBack(w[3]))) else None
    case SET_INT => if n == 4 then Some(BitModifier.SetInt(m.bin, w[2], w[1], w[0], FlagsBack(w[3]))) else None
    case _ => None
  }

  lemma {:induction false} BitModifierBack(b: BitModifier)
    ensures RecallBitModifier(MessageOf(BitModifierPlan(b))) == Some(PlainBitModifier(b))
  {
  }

  lemma {:induction false} BitModifierSame(b: BitModifier)
    ensures BitModifierPlan(PlainBitModifier(b)) == BitModifierPlan(b)
  {
  }

  /** Two bit modifications yield the same array if and only if they are the same call, up to what
      a policy says beside its flags, and no policy being the same as flags 0. */
  lemma {:induction false} BitModifiersDistinct(b: BitModifier, c: BitModifier)
    requires Sound(BitModifierPlan(b)) && Sound(BitModifierPlan(c))
    ensures Emit(BitModifierPlan(b)) == Emit(BitModifierPlan(c)) <==> PlainBitModifier(b) == PlainBitModifier(c)
  {
    EmitInjective(BitModifierPlan(b), BitModifierPlan(c));
    BitModifierBack(b);
    BitModifierBack(c);
    BitModifierSame(b);
    BitModifierSame(c);
  }

  function RecallBitReader(m: Message): Option<BitReader> {
    var w, n := m.wire, |m.wire|;
    match m.op
    case GET => if n == 2 then Some(BitReader.Get(m.bin, w[1], w[0])) else None
    case COUNT => if n == 2 then Some(BitReader.Count(m.bin, w[1], w[0])) else None
    case LSCAN => if n == 3 then Some(BitReader.LScan(m.bin, w[2], w[1], w[0])) else None
    case RSCAN => if n == 3 then Some(BitReader.RScan(m.bin, w[2], w[1], w[0])) else None
    case GET_INT => if n == 3 then Some(BitReader.GetInt(m.bin, AsInt(w[2]) == 1, w[1], w[0])) else None
    case _ => None
  }

  lemma {:induction false} BitReaderBack(b: BitReader)
    ensures RecallBitReader(MessageOf(BitReaderPlan(b))) == Some(b)
  {
  }

  /** Two bit reads yield the same array if and only if they are the same call. */
  lemma {:induction false} BitReadersDistinct(b: BitReader, c: BitReader)
    requires Sound(BitReaderPlan(b)) && Sound(BitReaderPlan(c))
    ensures Emit(BitReaderPlan(b)) == Emit(BitReaderPlan(c)) <==> b == c
  {
    EmitInjective(BitReaderPlan(b), BitReaderPlan(c));
    BitReaderBack(b);
    BitReaderBack(c);
  }

  // HyperLogLog operations: `add` and `update` are `addMH` with −1 for the missing bit counts.

  function PlainHll(b: HllBuilder): HllBuilder {
    match b
    case InitMH(bin, mh, index, policy) => HllBuilder.InitMH(bin, mh, index, FlagsOnly(policy))
    case Init(bin, index, policy) => HllBuilder.Init(bin, index, FlagsOnly(policy))
    case AddMH(bin, mh, index, list, policy) => HllBuilder.AddMH(bin, mh, index, list, FlagsOnly(policy))
    case Add(bin, index, list, policy) => HllBuilder.AddMH(bin, -1, index, list, FlagsOnly(policy))
    case Update(bin, list, policy) => HllBuilder.AddMH(bin, -1, -1, list, FlagsOnly(policy))
    case _ => b
  }

  function RecallHll(m: Message): Option<HllBuilder> {
    var w, n := m.wire, |m.wire|;
    match m.op
    case INIT =>
      if n == 3 then Some(HllBuilder.InitMH(m.bin, AsInt(w[1]), AsInt(w[0]), HllFlagsBack(w[2])))
      else if n == 2 then Some(HllBuilder.Init(m.bin, AsInt(w[0]), HllFlagsBack(w[1])))
      else None
    case ADD =>
      if n == 4 then Some(HllBuilder.AddMH(m.bin, AsInt(w[2]), AsInt(w[1]), w[0], HllFlagsBack(w[3]))) else None
    case COUNT => Some(HllBuilder.GetCount(m.bin))
    case GET_UNION => if n == 1 then Some(HllBuilder.GetUnion(m.bin, w[0])) else None
    case UNION_COUNT => if n == 1 then Some(HllBuilder.GetUnionCount(m.bin, w[0])) else None
    case INTERSECT_COUNT => if n == 1 then Some(HllBuilder.GetIntersectCount(m.bin, w[0])) else None
    case SIMILARITY => if n == 1 then Some(HllBuilder.GetSimilarity(m.bin, w[0])) else None
    case DESCRIBE => Some(HllBuilder.Describe(m.bin))
    case MAY_CONTAIN => if n == 1 then Some(HllBuilder.MayContain(m.bin, w[0])) else None
    case _ => None
  }

  lemma {:induction false} HllBack(b: HllBuilder)
    ensures RecallHll(MessageOf(HllPlan(b))) == Some(PlainHll(b))
  {
  }

  lemma {:induction false} HllSame(b: HllBuilder)
    ensures HllPlan(PlainHll(b)) == HllPlan(b)
  {
  }

  /** Two HyperLogLog calls yield the same array if and only if they are the same call, up to the
      calls that stand for `addMH` and what a policy says beside its flags. */
  lemma {:induction false} HllBuildersDistinct(b: HllBuilder, c: HllBuilder)
    requires Sound(HllPlan(b)) && Sound(HllPlan(c))
    ensures Emit(HllPlan(b)) == Emit(HllPlan(c)) <==> PlainHll(b) == PlainHll(c)
  {
    EmitInjective(HllPlan(b), HllPlan(c));
    HllBack(b);
    HllBack(c);
    HllSame(b);
    HllSame(c);
  }

  // Builders that belong together take the same operands.

  /** The read that returns what a removal from a map removes. */
  function ReadOf(b: MapModifier): Option<MapReader> {
    match b
    case RemoveByKey(bin, key, ctx, rt) => Some(MapReader.GetByKey(bin, key, TAuto, rt, ctx))
    case RemoveByKeyList(bin, keys, ctx, rt) => Some(MapReader.GetByKeyList(bin, keys, rt, ctx))
    case RemoveByKeyRange(bin, end, begin, ctx, rt) => Some(MapReader.GetByKeyRange(bin, end, begin, rt, ctx))
    case RemoveByKeyRelIndexRangeToEnd(bin, idx, key, ctx, rt) =>
      Some(MapReader.GetByKeyRelIndexRangeToEnd(bin, idx, key, rt, ctx))
    case RemoveByKeyRelIndexRange(bin, count, idx, key, ctx, rt) =>
      Some(MapReader.GetByKeyRelIndexRange(bin, count, idx, key, rt, ctx))
    case RemoveByValue(bin, value, ctx, rt) => Some(MapReader.GetByValue(bin, value, rt, ctx))
    case RemoveByValueList(bin, values, ctx, rt) => Some(MapReader.GetByValueList(bin, values, rt, ctx))
    case RemoveByValueRange(bin, end, begin, ctx, rt) => Some(MapReader.GetByValueRange(bin, end, begin, rt, ctx))
    case RemoveByValueRelRankRangeToEnd(bin, rank, value, ctx, rt) =>
      Some(MapReader.GetByValueRelRankRangeToEnd(bin, rank, value, rt, ctx))
    case RemoveByValueRelRankRange(bin, count, rank, value, ctx, rt) =>
      Some(MapReader.GetByValueRelRankRange(bin, count, rank, value, rt, ctx))
    case RemoveByIndex(bin, idx, ctx, rt) => Some(MapReader.GetByIndex(bin, idx, TAuto, rt, ctx))
    case RemoveByIndexRangeToEnd(bin, idx, ctx, rt) => Some(MapReader.GetByIndexRangeToEnd(bin, idx, rt, ctx))
    case RemoveByIndexRange(bin, count, idx, ctx, rt) => Some(MapReader.GetByIndexRange(bin, count, idx, rt, ctx))
    case RemoveByRank(bin, rank, ctx, rt) => Some(MapReader.GetByRank(bin, rank, TAuto, rt, ctx))
    case RemoveByRankRangeToEnd(bin, rank, ctx, rt) => Some(MapReader.GetByRankRangeToEnd(bin, rank, rt, ctx))
    case RemoveByRankRange(bin, count, rank, ctx, rt) => Some(MapReader.GetByRankRange(bin, count, rank, rt, ctx))
    case _ => None
  }

  /** The same removal from a map, and from a list without a return type. */
  function InMap(b: ListModifier): Option<MapModifier> {
    match b
    case RemoveByValue(bin, value, ctx, _) => Some(MapModifier.RemoveByValue(bin, value, ctx, NO_RETURN))
    case RemoveByValueList(bin, values, ctx, _) => Some(MapModifier.RemoveByValueList(bin, values, ctx, NO_RETURN))
    case RemoveByValueRange(bin, end, begin, ctx, _) =>
      Some(MapModifier.RemoveByValueRange(bin, end, begin, ctx, NO_RETURN))
    case RemoveByRelRankRangeToEnd(bin, rank, value, ctx, _) =>
      Some(MapModifier.RemoveByValueRelRankRangeToEnd(bin, rank, value, ctx, NO_RETURN))
    case RemoveByRelRankRange(bin, count, rank, value, ctx, _) =>
      Some(MapModifier.RemoveByValueRelRankRange(bin, count, rank, value, ctx, NO_RETURN))
    case RemoveByIndex(bin, idx, ctx, _) => Some(MapModifier.RemoveByIndex(bin, idx, ctx, NO_RETURN))
    case RemoveByIndexRangeToEnd(bin, idx, ctx, _) =>
      Some(MapModifier.RemoveByIndexRangeToEnd(bin, idx, ctx, NO_RETURN))
    case RemoveByIndexRange(bin, count, idx, ctx, _) =>
      Some(MapModifier.RemoveByIndexRange(bin, count, idx, ctx, NO_RETURN))
    case RemoveByRank(bin, rank, ctx, _) => Some(MapModifier.RemoveByRank(bin, rank, ctx, NO_RETURN))
    case RemoveByRankRangeToEnd(bin, rank, ctx, _) =>
      Some(MapModifier.RemoveByRankRangeToEnd(bin, rank, ctx, NO_RETURN))
    case RemoveByRankRange(bin, count, rank, ctx, _) =>
      Some(MapModifier.RemoveByRankRange(bin, count, rank, ctx, NO_RETURN))
    case _ => None
  }

  /** The same read of a map, whose parameters come in another order. */
  function InMapRead(b: ListReader): MapReader {
    match b
    case Size(bin, ctx) => MapReader.Size(bin, ctx)
    case GetByValue(bin, value, rt, ctx) => MapReader.GetByValue(bin, value, rt, ctx)
    case GetByValueRange(bin, begin, end, rt, ctx) => MapReader.GetByValueRange(bin, end, begin, rt, ctx)
    case GetByValueList(bin, values, rt, ctx) => MapReader.GetByValueList(bin, values, rt, ctx)
    case GetByRelRankRangeToEnd(bin, value, rank, rt, ctx) =>
      MapReader.GetByValueRelRankRangeToEnd(bin, rank, value, rt, ctx)
    case GetByRelRankRange(bin, value, rank, count, rt, ctx) =>
      MapReader.GetByValueRelRankRange(bin, count, rank, value, rt, ctx)
    case GetByIndex(bin, idx, t, rt, ctx) => MapReader.GetByIndex(bin, idx, t, rt, ctx)
    case GetByIndexRangeToEnd(bin, idx, rt, ctx) => MapReader.GetByIndexRangeToEnd(bin, idx, rt, ctx)
    case GetByIndexRange(bin, idx, count, rt, ctx) => MapReader.GetByIndexRange(bin, count, idx, rt, ctx)
    case GetByRank(bin, rank, t, rt, ctx) => MapReader.GetByRank(bin, rank, t, rt, ctx)
    case GetByRankRangeToEnd(bin, rank, rt, ctx) => MapReader.GetByRankRangeToEnd(bin, rank, rt, ctx)
    case GetByRankRange(bin, rank, count, rt, ctx) => MapReader.GetByRankRange(bin, count, rank, rt, ctx)
  }

  /** A removal takes exactly the operands of the read, in the same order; removals and reads of
      lists take those of maps. */
  lemma {:induction false} SameOperands(b: MapModifier, c: ListModifier, r: ListReader)
    ensures ReadOf(b).Some? ==> MapModifierPlan(b).wire == MapReaderPlan(ReadOf(b).value).wire
    ensures InMap(c).Some? ==> ListModifierPlan(c).wire == MapModifierPlan(InMap(c).value).wire
    ensures ListReaderPlan(r).wire == MapReaderPlan(InMapRead(r)).wire
  {
    RemovalOperands(b);
    ListRemovalOperands(c);
    ListReadOperands(r);
  }

  lemma {:induction false} RemovalOperands(b: MapModifier)
    ensures ReadOf(b).Some? ==> MapModifierPlan(b).wire == MapReaderPlan(ReadOf(b).value).wire
  {
  }

  lemma {:induction false} ListRemovalOperands(c: ListModifier)
    ensures InMap(c).Some? ==> ListModifierPlan(c).wire == MapModifierPlan(InMap(c).value).wire
  {
  }

  lemma {:induction false} ListReadOperands(r: ListReader)
    ensures ListReaderPlan(r).wire == MapReaderPlan(InMapRead(r)).wire
  {
  }
}
