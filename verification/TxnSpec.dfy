/** Multi-record transactions and their pool, on values: what lib/transaction.js,
    lib/transaction_pool.js and the commit and abort gates of lib/client.js do to them. */
module TxnSpec {
  import opened Prelude

  const READ_WRITE_LIMIT := 500_000
  const UINT32_MAX := 0xFFFF_FFFF

  datatype State = Open | Verified | Committed | Aborted

  /** What the three getters answer. */
  datatype Native = Native(state: State, inDoubt: bool, timeout: int)

  /** A transaction: its native side, and the snapshot taken when it was closed. */
  datatype Txn = Txn(readCap: nat, writeCap: nat, native: Native, closed: Option<Native>)

  function View(t: Txn): Native { if t.closed.Some? then t.closed.value else t.native }

  predicate Finished(s: State) { s == Committed || s == Aborted }

  predicate Completed(t: Txn) { Finished(View(t).state) }

  function Close(t: Txn): Txn { if t.closed.Some? then t else t.(closed := Some(t.native)) }

  function Cap(t: Txn): nat { t.readCap + t.writeCap }

  // Sequences: index-based removal and filtering.

  function Without<T(==)>(s: seq<T>, gone: set<T>): seq<T> {
    if s == [] then []
    else Without(s[..|s| - 1], gone) + (if s[|s| - 1] in gone then [] else [s[|s| - 1]])
  }

  /** `removeTransactions`: splice out each index in turn, skipping those out of range. */
  function SpliceAll<T>(s: seq<T>, indices: seq<int>): seq<T> {
    if indices == [] then s
    else if 0 <= indices[0] < |s|
    then SpliceAll(s[..indices[0]] + s[indices[0] + 1..], indices[1..])
    else SpliceAll(s, indices[1..])
  }

  /** The indices that `tendTransactions` collects with `unshift`: the last one comes first. */
  function Collected<T(==)>(s: seq<T>, gone: set<T>): seq<int> {
    if s == [] then []
    else (if s[|s| - 1] in gone then [|s| - 1] else []) + Collected(s[..|s| - 1], gone)
  }

  /** Splicing out the collected indices is filtering, in the original order. */
  lemma {:induction false} SpliceIsFilter<T>(s: seq<T>, gone: set<T>, rest: seq<T>)
    ensures SpliceAll(s + rest, Collected(s, gone)) == Without(s, gone) + rest
  {
    if s == [] {
      assert s + rest == rest && Without(s, gone) + rest == rest;
    } else {
      var front, x := s[..|s| - 1], s[|s| - 1];
      assert s == front + [x];
      LastKept(front, x, gone, rest);
      if x in gone {
        SpliceFirst(front, x, rest, Collected(front, gone));
        SpliceIsFilter(front, gone, rest);
      } else {
        SpliceIsFilter(front, gone, [x] + rest);
      }
    }
  }

  lemma {:induction false} LastKept<T>(front: seq<T>, x: T, gone: set<T>, rest: seq<T>)
    ensures Collected(front + [x], gone)
         == if x in gone then [|front|] + Collected(front, gone) else Collected(front, gone)
    ensures Without(front + [x], gone) + rest
         == if x in gone then Without(front, gone) + rest else Without(front, gone) + ([x] + rest)
    ensures front + [x] + rest == front + ([x] + rest)
  {
    var s, kept := front + [x], Without(front, gone);
    assert s[..|s| - 1] == front && s[|s| - 1] == x;
    assert Without(s, gone) == kept + (if x in gone then [] else [x]);
    Regroup(front, [x], rest);
    Regroup(kept, [x], rest);
    assert kept + [] == kept && [] + Collected(front, gone) == Collected(front, gone);
  }

  lemma {:induction false} SpliceFirst<T>(front: seq<T>, x: T, rest: seq<T>, more: seq<int>)
    ensures SpliceAll(front + [x] + rest, [|front|] + more) == SpliceAll(front + rest, more)
  {
    var s := front + [x] + rest;
    assert ([|front|] + more)[1..] == more;
    assert s[..|front|] + s[|front| + 1..] == front + rest;
  }

  /** An index takes out exactly the element at it, and one that is out of range nothing; the others
      are taken out afterwards. */
  lemma {:induction false} SpliceExact<T>(front: seq<T>, x: T, back: seq<T>, out: int, more: seq<int>)
    ensures SpliceAll(front + [x] + back, [|front|] + more) == SpliceAll(front + back, more)
    ensures out < 0 || out >= |front| ==> SpliceAll(front, [out] + more) == SpliceAll(front, more)
    ensures SpliceAll(front, []) == front
  {
    SpliceFirst(front, x, back, more);
    assert ([out] + more)[1..] == more;
  }

  predicate Distinct<T(==)>(s: seq<T>) { forall i, j | 0 <= i < j < |s| :: s[i] != s[j] }

  lemma {:induction false} WithoutFacts<T>(s: seq<T>, gone: set<T>)
    ensures forall x :: x in Without(s, gone) <==> x in s && x !in gone
    ensures Distinct(s) ==> Distinct(Without(s, gone))
    ensures |Without(s, gone)| <= |s|
  {
    if s != [] {
      WithoutFacts(s[..|s| - 1], gone);
      WithoutOneMore(s[..|s| - 1], s[|s| - 1], gone);
      assert s == s[..|s| - 1] + [s[|s| - 1]];
    }
  }

  lemma {:induction false} WithoutOneMore<T>(s: seq<T>, x: T, gone: set<T>)
    requires forall y :: y in Without(s, gone) <==> y in s && y !in gone
    requires Distinct(s) ==> Distinct(Without(s, gone))
    ensures forall y :: y in Without(s + [x], gone) <==> y in s + [x] && y !in gone
    ensures Distinct(s + [x]) ==> Distinct(Without(s + [x], gone))
    ensures |Without(s + [x], gone)| <= |Without(s, gone)| + 1
  {
    var kept := Without(s, gone);
    assert (s + [x])[..|s|] == s;
    assert kept + [] == kept;
    if Distinct(s + [x]) {
      assert forall i | 0 <= i < |s| :: (s + [x])[i] == s[i] && s[i] in s;
      assert x !in s;
      assert Distinct(s);
      assert x !in kept;
    }
  }

  // The pool and all transactions that exist.

  datatype World = World(txns: map<nat, Txn>, pool: seq<nat>, capacity: nat, total: int)

  function Init(capacity: nat): World { World(map[], [], capacity, 0) }

  predicate Known(w: World) { forall id | id in w.pool :: id in w.txns }

  function Sum(txns: map<nat, Txn>, ids: seq<nat>): nat
    requires forall id | id in ids :: id in txns
  {
    if ids == [] then 0 else Sum(txns, ids[..|ids| - 1]) + Cap(txns[ids[|ids| - 1]])
  }

  function CloseThose(txns: map<nat, Txn>, ids: set<nat>): map<nat, Txn> {
    map id | id in txns :: if id in ids then Close(txns[id]) else txns[id]
  }

  function PooledCompleted(w: World): set<nat> { set id | id in w.pool && id in w.txns && Completed(w.txns[id]) }

  /** `tendTransactions`. */
  function Tend(w: World): World
    requires Known(w)
  {
    if |w.pool| <= w.capacity then w else
      var gone := PooledCompleted(w);
      var pool := Without(w.pool, gone);
      WithoutFacts(w.pool, gone);
      World(CloseThose(w.txns, gone), pool,
            if |pool| > w.capacity then 2 * w.capacity else w.capacity,
            w.total - (Sum(w.txns, w.pool) - Sum(w.txns, pool)))
  }

  /** `removeAllTransactions`. */
  function RemoveAll(w: World): World
    requires Known(w)
  {
    World(CloseThose(w.txns, set id | id in w.pool), [], w.capacity, w.total - Sum(w.txns, w.pool))
  }

  /** What a user program and the native side can do next. */
  datatype Event =
    | Create(id: nat, readCap: int, writeCap: int, initial: Native)
    | NativeMoves(id: nat, to: Native)
    | Commit(id: nat)
    | Abort(id: nat)
    | SetTimeout(id: nat, timeout: int)
    | DestroyAll

  datatype Outcome =
    | Created(pooled: bool) | CapacityOutOfRange | PoolFull | IdInUse
    | Quiet | TimeoutSet
    | NativeCommit | NativeAbort | AlreadyCommitted | AlreadyAborted
    | CommittedError | AbortedError | DestroyedError | CompleteError | NotATransaction

  predicate IsUint32(n: int) { 0 <= n <= UINT32_MAX }

  /** The gate in front of a native commit. */
  function CommitGate(t: Txn): Outcome {
    if View(t).state == Committed then AlreadyCommitted
    else if View(t).state == Aborted then AbortedError
    else if t.closed.Some? then DestroyedError
    else NativeCommit
  }

  function AbortGate(t: Txn): Outcome {
    if View(t).state == Committed then CommittedError
    else if View(t).state == Aborted then AlreadyAborted
    else if t.closed.Some? then DestroyedError
    else NativeAbort
  }

  function Add(w: World, id: nat, t: Txn, pooled: bool): World {
    w.(txns := w.txns[id := t],
       pool := if pooled then w.pool + [id] else w.pool,
       total := if pooled then w.total + Cap(t) else w.total)
  }

  /** The Transaction constructor with `pushTransaction`. Above the limit the pool is tended;
      if that makes room, the new transaction is neither pushed nor counted. */
  function Construct(w: World, id: nat, t: Txn): (World, Outcome)
    requires Known(w)
  {
    if w.total > READ_WRITE_LIMIT then
      var w' := Tend(w);
      if w'.total > READ_WRITE_LIMIT then (w', PoolFull) else (Add(w', id, t, false), Created(false))
    else (Add(w, id, t, true), Created(true))
  }

  function Step(w: World, e: Event): (World, Outcome)
    requires Known(w)
  {
    match e
    case Create(id, readCap, writeCap, initial) =>
      if id in w.txns then (w, IdInUse)
      else if !IsUint32(readCap) || !IsUint32(writeCap) then (w, CapacityOutOfRange)
      else Construct(w, id, Txn(readCap, writeCap, initial, None))
    case NativeMoves(id, to) =>
      if id in w.txns then (w.(txns := w.txns[id := w.txns[id].(native := to)]), Quiet) else (w, Quiet)
    case Commit(id) =>
      var w' := Tend(w);
      (w', if id in w'.txns then CommitGate(w'.txns[id]) else NotATransaction)
    case Abort(id) =>
      var w' := Tend(w);
      (w', if id in w'.txns then AbortGate(w'.txns[id]) else NotATransaction)
    case SetTimeout(id, timeout) =>
      if id !in w.txns then (w, NotATransaction)
      else if w.txns[id].closed.Some? then (w, CompleteError)
      else (w.(txns := w.txns[id := w.txns[id].(native := w.txns[id].native.(timeout := timeout))]), TimeoutSet)
    case DestroyAll => (RemoveAll(w), Quiet)
  }

  // Accounting.

  /** The running total is the summed capacity of the pooled transactions, none of which has
      been destroyed. */
  ghost predicate Inv(w: World) {
    && Known(w) && Distinct(w.pool)
    && (forall id | id in w.pool :: w.txns[id].closed.None?)
    && (forall id | id in w.txns :: IsUint32(w.txns[id].readCap) && IsUint32(w.txns[id].writeCap))
    && w.total == Sum(w.txns, w.pool)
    && w.total <= READ_WRITE_LIMIT + 2 * UINT32_MAX
  }

  lemma {:induction false} SumAgrees(a: map<nat, Txn>, b: map<nat, Txn>, ids: seq<nat>)
    requires forall id | id in ids :: id in a && id in b && Cap(a[id]) == Cap(b[id])
    ensures Sum(a, ids) == Sum(b, ids)
  {
    if ids != [] { SumAgrees(a, b, ids[..|ids| - 1]); }
  }

  lemma {:induction false} SumShrinks(txns: map<nat, Txn>, ids: seq<nat>, gone: set<nat>)
    requires forall id | id in ids :: id in txns
    requires forall id | id in Without(ids, gone) :: id in txns
    ensures Sum(txns, Without(ids, gone)) <= Sum(txns, ids)
  {
    if ids != [] {
      var n, x := |ids| - 1, ids[|ids| - 1];
      WithoutFacts(ids[..n], gone);
      SumShrinks(txns, ids[..n], gone);
      if x in gone {
        assert Without(ids, gone) == Without(ids[..n], gone);
      } else {
        assert Without(ids, gone)[..|Without(ids, gone)| - 1] == Without(ids[..n], gone);
      }
    }
  }

  lemma {:induction false} TendInv(w: World)
    requires Inv(w)
    ensures Inv(Tend(w)) && Tend(w).total <= w.total && Tend(w).txns.Keys == w.txns.Keys
  {
    if |w.pool| > w.capacity {
      FilterInv(w, PooledCompleted(w), Tend(w).capacity);
    }
  }

  /** Closing some transactions and taking them out of the pool keeps the accounts. */
  lemma {:induction false} FilterInv(w: World, gone: set<nat>, capacity: nat)
    requires Inv(w)
    ensures forall id | id in Without(w.pool, gone) :: id in w.pool && id in w.txns
    ensures Sum(w.txns, Without(w.pool, gone)) <= Sum(w.txns, w.pool)
    ensures Inv(World(CloseThose(w.txns, gone), Without(w.pool, gone), capacity, Sum(w.txns, Without(w.pool, gone))))
  {
    var pool, txns := Without(w.pool, gone), CloseThose(w.txns, gone);
    WithoutFacts(w.pool, gone);
    SumShrinks(w.txns, w.pool, gone);
    SumAgrees(w.txns, txns, pool);
    assert forall id | id in pool :: txns[id] == w.txns[id];
  }

  lemma {:induction false} RemoveAllInv(w: World)
    requires Inv(w)
    ensures Inv(RemoveAll(w)) && RemoveAll(w).total == 0 && RemoveAll(w).pool == []
  {
  }

  lemma {:induction false} AddInv(w: World, id: nat, t: Txn, pooled: bool)
    requires Inv(w) && id !in w.txns && t.closed.None? && IsUint32(t.readCap) && IsUint32(t.writeCap)
    requires pooled ==> w.total <= READ_WRITE_LIMIT
    ensures Inv(Add(w, id, t, pooled))
  {
    var w' := Add(w, id, t, pooled);
    SumAgrees(w.txns, w'.txns, w.pool);
    if pooled { assert w'.pool[..|w'.pool| - 1] == w.pool; }
  }

  lemma {:induction false} NativeChangeInv(w: World, id: nat, to: Native)
    requires Inv(w) && id in w.txns
    ensures Inv(w.(txns := w.txns[id := w.txns[id].(native := to)]))
  {
    SumAgrees(w.txns, w.txns[id := w.txns[id].(native := to)], w.pool);
  }

  /** Every step of a user program or of the native side keeps the accounts. */
  lemma {:induction false} StepInv(w: World, e: Event)
    requires Inv(w)
    ensures Inv(Step(w, e).0)
  {
    TendInv(w);
    match e
    case Create(id, r, wr, initial) =>
      if id !in w.txns && IsUint32(r) && IsUint32(wr) {
        var t := Txn(r, wr, initial, None);
        if w.total <= READ_WRITE_LIMIT { AddInv(w, id, t, true); }
        else if Tend(w).total <= READ_WRITE_LIMIT { AddInv(Tend(w), id, t, false); }
      }
    case NativeMoves(id, to) =>
      if id in w.txns { NativeChangeInv(w, id, to); }
    case SetTimeout(id, timeout) =>
      if id in w.txns { NativeChangeInv(w, id, w.txns[id].native.(timeout := timeout)); }
    case DestroyAll =>
      RemoveAllInv(w);
    case _ =>
  }

  ghost function Run(w: World, es: seq<Event>): World
    requires Inv(w)
    decreases |es|
  {
    if es == [] then w else StepInv(w, es[0]); Run(Step(w, es[0]).0, es[1..])
  }

  /** Pool accounting, in every reachable state. */
  lemma {:induction false} Accounting(w: World, es: seq<Event>)
    requires Inv(w)
    ensures Inv(Run(w, es))
    ensures 0 <= Run(w, es).total <= 500_000 + 2 * 4_294_967_295
    ensures RemoveAll(Run(w, es)).total == 0
    decreases |es|
  {
    if es != [] {
      StepInv(w, es[0]);
      Accounting(Step(w, es[0]).0, es[1..]);
    }
    RemoveAllInv(Run(w, es));
  }

  /** A transaction is left out of the pool exactly when the total was above the limit and tending
      has brought it back; it can then be neither tended nor destroyed in any run. */
  lemma {:induction false} LeftOut(w: World, id: nat, t: Txn, es: seq<Event>)
    requires Inv(w) && id !in w.txns && t.closed.None? && IsUint32(t.readCap) && IsUint32(t.writeCap)
    ensures var (w', o) := Construct(w, id, t);
      && (o == Created(false) <==> w.total > READ_WRITE_LIMIT && Tend(w).total <= READ_WRITE_LIMIT)
      && (o == Created(false) ==> Inv(w') && id in Run(w', es).txns && Run(w', es).txns[id].closed.None?)
  {
    TendInv(w);
    if w.total > READ_WRITE_LIMIT && Tend(w).total <= READ_WRITE_LIMIT {
      AddInv(Tend(w), id, t, false);
      NeverClosed(Construct(w, id, t).0, es, id);
    }
  }

  lemma {:induction false} NeverClosed(w: World, es: seq<Event>, id: nat)
    requires Inv(w) && id in w.txns && id !in w.pool && w.txns[id].closed.None?
    ensures var w' := Run(w, es); id in w'.txns && id !in w'.pool && w'.txns[id].closed.None?
    decreases |es|
  {
    if es != [] {
      StepInv(w, es[0]);
      NotClosedNow(w, es[0], id);
      NeverClosed(Step(w, es[0]).0, es[1..], id);
    }
  }

  lemma {:induction false} NotClosedNow(w: World, e: Event, id: nat)
    requires Inv(w) && id in w.txns && id !in w.pool && w.txns[id].closed.None?
    ensures var w' := Step(w, e).0; id in w'.txns && id !in w'.pool && w'.txns[id].closed.None?
  {
    StaysOut(w, id);
    match e
    case Create(new_id, r, wr, initial) =>
      if new_id !in w.txns && IsUint32(r) && IsUint32(wr) {
        assert new_id != id;
      }
    case _ =>
  }

  lemma {:induction false} StaysOut(w: World, id: nat)
    requires Inv(w) && id in w.txns && id !in w.pool && w.txns[id].closed.None?
    ensures id in Tend(w).txns && id !in Tend(w).pool && Tend(w).txns[id].closed.None?
  {
    WithoutFacts(w.pool, PooledCompleted(w));
  }

  /** What a construction answers. */
  lemma {:induction false} CreateAnswers(w: World, id: nat, r: int, wr: int, initial: Native)
    requires Inv(w) && id !in w.txns
    ensures var o := Step(w, Create(id, r, wr, initial)).1;
      if r < 0 || r > 4_294_967_295 || wr < 0 || wr > 4_294_967_295 then o == CapacityOutOfRange
      else if w.total <= 500_000 then o == Created(true)
      else o == if Tend(w).total > 500_000 then PoolFull else Created(false)
    ensures var (w', o) := Step(w, Create(id, r, wr, initial));
      && (id in w'.txns <==> o.Created?)
      && (o.Created? ==> w'.txns[id] == Txn(r, wr, initial, None))
      && (o == Created(true) ==> w'.pool == w.pool + [id] && w'.total == w.total + r + wr)
      && (!o.Created? ==> w' == w || w' == Tend(w))
  {
    TendInv(w);
  }

  /** What tending does: nothing up to the capacity; above it, exactly the pooled transactions that
      are committed or aborted leave the pool and are closed with what they show, the others stay in
      their order and are not touched, and the capacity doubles if they still exceed it. */
  lemma {:induction false} TendExact(w: World)
    requires Inv(w)
    ensures |w.pool| <= w.capacity ==> Tend(w) == w
    ensures |w.pool| > w.capacity ==>
      && (forall id :: id in Tend(w).pool <==> id in w.pool && w.txns[id].native.state !in {Committed, Aborted})
      && (forall id | id in w.txns ::
            Tend(w).txns[id] == if id in w.pool && id !in Tend(w).pool
                                then w.txns[id].(closed := Some(w.txns[id].native)) else w.txns[id])
      && Tend(w).capacity == (if |Tend(w).pool| > w.capacity then 2 * w.capacity else w.capacity)
    ensures forall a, b | 0 <= a < b < |Tend(w).pool| :: Before(w.pool, Tend(w).pool[a], Tend(w).pool[b])
  {
    WithoutOrder(w.pool, PooledCompleted(w));
    if |w.pool| > w.capacity {
      TendSelects(w);
      assert Tend(w).pool == Without(w.pool, PooledCompleted(w));
    } else {
      forall a, b | 0 <= a < b < |w.pool| ensures Before(w.pool, w.pool[a], w.pool[b]) { }
    }
  }

  lemma {:induction false} TendSelects(w: World)
    requires Inv(w) && |w.pool| > w.capacity
    ensures forall id :: id in Tend(w).pool <==> id in w.pool && w.txns[id].native.state !in {Committed, Aborted}
    ensures forall id | id in w.txns ::
      Tend(w).txns[id] == if id in w.pool && id !in Tend(w).pool then w.txns[id].(closed := Some(w.txns[id].native))
                          else w.txns[id]
  {
    WithoutFacts(w.pool, PooledCompleted(w));
  }

  /** One element comes before another. */
  ghost predicate Before<T>(s: seq<T>, x: T, y: T) { exists i, j :: 0 <= i < j < |s| && s[i] == x && s[j] == y }

  lemma {:induction false} BeforeLast<T>(s: seq<T>, x: T)
    requires s != []
    ensures x in s[..|s| - 1] ==> Before(s, x, s[|s| - 1])
    ensures forall y :: Before(s[..|s| - 1], x, y) ==> Before(s, x, y)
  {
    var n := |s| - 1;
    assert forall i | 0 <= i < n :: s[..n][i] == s[i];
  }

  lemma {:induction false} WithoutIn<T>(s: seq<T>, gone: set<T>, x: T)
    requires x in Without(s, gone)
    ensures x in s && x !in gone
  {
    WithoutFacts(s, gone);
  }

  lemma {:induction false} WithoutOrder<T>(s: seq<T>, gone: set<T>)
    ensures var r := Without(s, gone); forall a, b | 0 <= a < b < |r| :: Before(s, r[a], r[b])
  {
    if s != [] {
      var n := |s| - 1;
      var r, q := Without(s, gone), Without(s[..n], gone);
      WithoutOrder(s[..n], gone);
      WithoutFacts(s[..n], gone);
      forall a, b | 0 <= a < b < |r| ensures Before(s, r[a], r[b]) {
        assert q[a] == r[a] && q[a] in q;
        BeforeLast(s, r[a]);
        WithoutIn(s[..n], gone, q[a]);
        if b < |q| { assert q[b] == r[b]; } else { assert r[b] == s[n]; }
      }
    }
  }
}
