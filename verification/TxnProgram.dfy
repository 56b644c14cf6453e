/** A program with all its transactions: the calls of lib/transaction.js and lib/client.js take
    exactly the steps of TxnSpec. */
module TxnProgram {
  import opened Prelude
  import opened TxnSpec
  import opened TxnPool
  import R = TxnRuns

  /** The identities in a list are those of the transactions in another. */
  ghost predicate Names(ids: seq<nat>, ts: seq<Transaction>, all: map<nat, Transaction>) {
    |ids| == |ts| && forall i | 0 <= i < |ids| :: ids[i] in all && all[ids[i]] == ts[i]
  }

  ghost predicate Injective(all: map<nat, Transaction>) {
    forall a, b | a in all && b in all && a != b :: all[a] != all[b]
  }

  lemma {:induction false} WithoutNames(ids: seq<nat>, ts: seq<Transaction>, all: map<nat, Transaction>,
                                        goneIds: set<nat>, gone: set<Transaction>)
    requires Names(ids, ts, all) && forall i | 0 <= i < |ids| :: ids[i] in goneIds <==> ts[i] in gone
    ensures Names(Without(ids, goneIds), Without(ts, gone), all)
  {
    if ids != [] {
      var n := |ids| - 1;
      WithoutNames(ids[..n], ts[..n], all, goneIds, gone);
    }
  }

  lemma {:induction false} SumsAgree(ids: seq<nat>, ts: seq<Transaction>, all: map<nat, Transaction>,
                                     txns: map<nat, Txn>)
    requires Names(ids, ts, all) && forall id | id in all ::
      id in txns && txns[id].readCap == all[id].readsCapacity && txns[id].writeCap == all[id].writesCapacity
    ensures (forall id | id in ids :: id in txns) && Sum(txns, ids) == SumOf(ts)
  {
    if ids != [] {
      var n := |ids| - 1;
      SumsAgree(ids[..n], ts[..n], all, txns);
    }
  }

  function Records(w: World): seq<Txn>
    requires Known(w)
  {
    seq(|w.pool|, i requires 0 <= i < |w.pool| => w.txns[w.pool[i]])
  }

  /** The pooled transactions of a world as values. */
  lemma {:induction false} PoolMatches(w: World, ts: seq<Transaction>, all: map<nat, Transaction>)
    requires Known(w) && Names(w.pool, ts, all) && Holds(all, w.txns)
    ensures Matches(ts, Records(w))
  {
  }

  ghost predicate GoneAgree(w: World, ts: seq<Transaction>, ids: set<nat>, gone: set<Transaction>) {
    |w.pool| == |ts| && forall i | 0 <= i < |ts| :: w.pool[i] in ids <==> ts[i] in gone
  }

  lemma {:induction false} Agree(w: World, ts: seq<Transaction>, all: map<nat, Transaction>)
    requires Known(w) && Names(w.pool, ts, all) && Injective(all)
    ensures GoneAgree(w, ts, PooledCompleted(w), Done(ts, Records(w)))
  {
  }

  /** If the pooled transactions are as swept and the others as before, all are as in `w`, those
      chosen closed. */
  lemma {:induction false} SweptHolds(w: World, ts: seq<Transaction>, all: map<nat, Transaction>, ids: set<nat>,
                                      chosen: set<Transaction>)
    requires Known(w) && Names(w.pool, ts, all) && Injective(all) && w.txns.Keys == all.Keys
    requires GoneAgree(w, ts, ids, chosen) && forall id | id in ids :: id in w.pool
    requires Matches(ts, Swept(ts, Records(w), chosen, |ts|)) && Holds(Others(all, ts), w.txns)
    ensures Holds(all, CloseThose(w.txns, ids))
  {
    forall id | id in all ensures all[id].Consistent() && all[id].Rec() == CloseThose(w.txns, ids)[id] {
      if all[id] in ts {
        var i :| 0 <= i < |ts| && ts[i] == all[id];
        SweptHoldsAt(w, ts, all, ids, chosen, i);
        assert w.pool[i] == id;
      } else {
        assert Others(all, ts)[id] == all[id];
        assert id !in ids;
      }
    }
  }

  lemma {:induction false} SweptHoldsAt(w: World, ts: seq<Transaction>, all: map<nat, Transaction>, ids: set<nat>,
                                        chosen: set<Transaction>, i: nat)
    requires Known(w) && Names(w.pool, ts, all) && GoneAgree(w, ts, ids, chosen) && i < |ts|
    requires Matches(ts, Swept(ts, Records(w), chosen, |ts|))
    ensures ts[i].Consistent() && ts[i].Rec() == CloseThose(w.txns, ids)[w.pool[i]]
  {
  }

  ghost function Others(all: map<nat, Transaction>, ts: seq<Transaction>): map<nat, Transaction> {
    map id | id in all && all[id] !in ts :: all[id]
  }

  /** The pool and all transactions that the program has made are as the world says. */
  ghost predicate Shows(pool: TransactionPool, all: map<nat, Transaction>, w: World)
    reads pool, pool.transactions, NativesOf(pool.transactions), all.Values, NativesIn(all)
  {
    match w
    case World(txns, pooled, capacity, _) =>
      && Inv(w) && txns.Keys == all.Keys && Injective(all) && (forall id | id in all :: all[id].pool == pool)
      && Holds(all, txns) && pool.Valid() && Names(pooled, pool.transactions, all) && capacity == pool.capacity
  }

  /** The running total is the world's, too. */
  lemma {:induction false} TotalShown(pool: TransactionPool, all: map<nat, Transaction>, w: World)
    requires Shows(pool, all, w)
    ensures w.total == pool.totalReadsAndWrites
  {
    TotalOf(pool, all, w);
  }

  /** Tending the pool: what is left is what the specification says, and transactions outside the
      pool stay as they are. */
  method Tended(pool: TransactionPool, ghost all: map<nat, Transaction>, ghost w: World)
    requires Shows(pool, all, w)
    modifies pool, pool.transactions, NativesOf(pool.transactions)`released
    ensures Shows(pool, all, Tend(w))
  {
    ghost var ts := pool.transactions;
    PoolMatches(w, ts, all);
    TendInv(w);
    pool.TendBeside(Records(w), Others(all, ts), w.txns);
    AsTended(pool, w, ts, all);
  }

  lemma {:induction false} AsTended(pool: TransactionPool, w: World, ts: seq<Transaction>, all: map<nat, Transaction>)
    requires Inv(w) && Names(w.pool, ts, all) && Injective(all) && w.txns.Keys == all.Keys
    requires pool.TendedFrom(ts, Records(w), w.capacity) && Holds(Others(all, ts), w.txns)
    ensures Holds(all, Tend(w).txns) && Names(Tend(w).pool, pool.transactions, all)
    ensures pool.capacity == Tend(w).capacity
  {
    Agree(w, ts, all);
    if |ts| > w.capacity {
      SweptHolds(w, ts, all, PooledCompleted(w), Done(ts, Records(w)));
      WithoutNames(w.pool, ts, all, PooledCompleted(w), Done(ts, Records(w)));
    } else {
      assert Swept(ts, Records(w), {}, |ts|) == Records(w);
      SweptHolds(w, ts, all, {}, {});
    }
  }

  // The calls of a program.

  /** The program starts with an empty pool. */
  method NewPool(capacity: nat) returns (pool: TransactionPool)
    ensures fresh(pool) && Shows(pool, map[], Init(capacity))
  {
    pool := new TransactionPool(capacity);
  }

  /** The Transaction constructor; there is no transaction if it throws. */
  method NewTransaction(pool: TransactionPool, readsCapacity: int, writesCapacity: int, ghost id: nat,
                        ghost all: map<nat, Transaction>, ghost w: World)
    returns (o: Outcome, t: Transaction?, ghost all': map<nat, Transaction>, ghost w': World)
    requires Shows(pool, all, w) && id !in all
    modifies pool, pool.transactions, NativesOf(pool.transactions)`released
    ensures Shows(pool, all', w')
    ensures (w', o) == Step(w, Create(id, readsCapacity, writesCapacity, Native(Open, false, 0)))
    ensures (t != null <==> o.Created?) && all' == if t != null then all[id := t] else all
  {
    all', w' := all, w;
    if !IsUint32(readsCapacity) || !IsUint32(writesCapacity) { return CapacityOutOfRange, null, all, w; }
    var made := Make(pool, readsCapacity, writesCapacity);
    o, w' := Pushed(pool, made, id, all, w);
    if o.Created? {
      t, all' := made, all[id := made];
    } else {
      t := null;
    }
  }

  /** The one pool of lib/aerospike.js. */
  method TheOnlyPool() returns (pool: TransactionPool)
    ensures fresh(pool) && Shows(pool, map[], Init(128))
  {
    pool := new TransactionPool();
  }

  method Pushed(pool: TransactionPool, t: Transaction, ghost id: nat, ghost all: map<nat, Transaction>, ghost w: World)
    returns (o: Outcome, ghost w': World)
    requires Shows(pool, all, w) && id !in all && t.pool == pool && t.Consistent() && !t.destroyed && t !in all.Values
    requires IsUint32(t.readsCapacity) && IsUint32(t.writesCapacity)
    modifies pool, pool.transactions, NativesOf(pool.transactions)`released
    ensures Shows(pool, if o.Created? then all[id := t] else all, w') && (w', o) == Construct(w, id, old(t.Rec()))
  {
    ghost var ts, rec := pool.transactions, t.Rec();
    PoolMatches(w, ts, all);
    TotalShown(pool, all, w);
    ghost var beside, txns := Others(all, ts)[id := t], w.txns[id := rec];
    assert Holds(beside, txns);
    assert t in beside.Values by { assert beside[id] == t; }
    assert t !in ts by { InPool(w.pool, ts, all, t); }
    o := pool.PushTransaction(t, Records(w), beside, txns);
    w' := Construct(w, id, rec).0;
    if o == Created(true) {
      PushedIn(pool, w, ts, all, id, t, rec);
    } else {
      PushedOut(pool, w, ts, all, id, t, rec);
    }
  }

  lemma {:induction false} PushedIn(pool: TransactionPool, w: World, ts: seq<Transaction>, all: map<nat, Transaction>,
                                    id: nat, t: Transaction, rec: Txn)
    requires Inv(w) && Names(w.pool, ts, all) && Injective(all) && w.txns.Keys == all.Keys && id !in all
    requires (forall k | k in all :: all[k].pool == pool) && t.pool == pool && t !in all.Values
    requires rec.closed.None? && IsUint32(rec.readCap) && IsUint32(rec.writeCap)
    requires pool.Valid() && Holds(Others(all, ts)[id := t], w.txns[id := rec])
    requires w.total <= READ_WRITE_LIMIT && pool.transactions == ts + [t] && Matches(ts, Records(w))
    requires pool.capacity == w.capacity
    ensures Shows(pool, all[id := t], Construct(w, id, rec).0)
  {
    Constructed(w, id, rec);
    InjectiveMore(all, id, t);
    AsAdded(pool, w, ts, all, id, t, rec);
  }

  lemma {:induction false} PushedOut(pool: TransactionPool, w: World, ts: seq<Transaction>, all: map<nat, Transaction>,
                                     id: nat, t: Transaction, rec: Txn)
    requires Inv(w) && Names(w.pool, ts, all) && Injective(all) && w.txns.Keys == all.Keys && id !in all
    requires (forall k | k in all :: all[k].pool == pool) && t.pool == pool && t !in all.Values
    requires rec.closed.None? && IsUint32(rec.readCap) && IsUint32(rec.writeCap)
    requires pool.Valid() && Holds(Others(all, ts)[id := t], w.txns[id := rec])
    requires w.total > READ_WRITE_LIMIT && pool.TendedFrom(ts, Records(w), w.capacity)
    ensures Tend(w).total == pool.totalReadsAndWrites
    ensures Shows(pool, if Construct(w, id, rec).1.Created? then all[id := t] else all, Construct(w, id, rec).0)
  {
    var w1, w2 := Tend(w), Add(Tend(w), id, rec, false);
    Constructed(w, id, rec);
    FromBeside(w, ts, all, id, t, rec);
    AsTended(pool, w, ts, all);
    assert Shows(pool, all, w1);
    TotalOf(pool, all, w1);
    if w1.total <= READ_WRITE_LIMIT {
      AsLeftOut(pool, w1, all, id, t, rec);
      assert Construct(w, id, rec) == (w2, TxnSpec.Created(false));
    } else {
      assert Construct(w, id, rec) == (w1, PoolFull);
    }
  }

  lemma {:induction false} InjectiveMore(all: map<nat, Transaction>, id: nat, t: Transaction)
    requires Injective(all) && id !in all && t !in all.Values
    ensures Injective(all[id := t])
  {
    var more := all[id := t];
    forall a, b | a in more && b in more && a != b ensures more[a] != more[b] {
      if a != id { assert all[a] in all.Values; }
      if b != id { assert all[b] in all.Values; }
    }
  }

  lemma {:induction false} FromBeside(w: World, ts: seq<Transaction>, all: map<nat, Transaction>, id: nat,
                                      t: Transaction, rec: Txn)
    requires id !in all && Holds(Others(all, ts)[id := t], w.txns[id := rec]) && all.Keys == w.txns.Keys
    ensures Holds(Others(all, ts), w.txns) && t.Consistent() && t.Rec() == rec
  {
    var others := Others(all, ts);
    assert others[id := t][id] == t;
    forall k | k in others ensures others[k].Consistent() && others[k].Rec() == w.txns[k] {
      assert others[id := t][k] == others[k];
    }
  }

  lemma {:induction false} Constructed(w: World, id: nat, t: Txn)
    requires Inv(w) && id !in w.txns && t.closed.None? && IsUint32(t.readCap) && IsUint32(t.writeCap)
    ensures Construct(w, id, t) == if w.total <= READ_WRITE_LIMIT then (Add(w, id, t, true), TxnSpec.Created(true))
                                   else if Tend(w).total > READ_WRITE_LIMIT then (Tend(w), PoolFull)
                                   else (Add(Tend(w), id, t, false), TxnSpec.Created(false))
    ensures Inv(Construct(w, id, t).0) && Inv(Tend(w)) && Tend(w).txns.Keys == w.txns.Keys
  {
    TendInv(w);
    if w.total <= READ_WRITE_LIMIT {
      AddInv(w, id, t, true);
    } else if Tend(w).total <= READ_WRITE_LIMIT {
      AddInv(Tend(w), id, t, false);
    }
  }

  lemma {:induction false} AsLeftOut(pool: TransactionPool, w: World, all: map<nat, Transaction>, id: nat,
                                     t: Transaction, rec: Txn)
    requires Shows(pool, all, w) && id !in all && t !in all.Values && t.pool == pool
    requires t.Consistent() && t.Rec() == rec && Inv(Add(w, id, rec, false))
    ensures Shows(pool, all[id := t], Add(w, id, rec, false))
  {
    InjectiveMore(all, id, t);
  }

  lemma {:induction false} TotalOf(pool: TransactionPool, all: map<nat, Transaction>, w: World)
    requires Known(w) && w.total == Sum(w.txns, w.pool) && pool.Valid() && Names(w.pool, pool.transactions, all)
    requires Holds(all, w.txns)
    ensures w.total == pool.totalReadsAndWrites
  {
    SumsAgree(w.pool, pool.transactions, all, w.txns);
  }

  lemma {:induction false} AsAdded(pool: TransactionPool, w: World, ts: seq<Transaction>, all: map<nat, Transaction>,
                                   id: nat, t: Transaction, rec: Txn)
    requires Inv(w) && Names(w.pool, ts, all) && Injective(all) && w.txns.Keys == all.Keys && id !in all
    requires Matches(ts, Records(w)) && Holds(Others(all, ts)[id := t], w.txns[id := rec])
    requires pool.transactions == ts + [t]
    ensures Holds(all[id := t], Add(w, id, rec, true).txns)
    ensures Names(Add(w, id, rec, true).pool, pool.transactions, all[id := t])
  {
    assert Others(all, ts)[id := t][id] == t;
    forall k | k in all ensures all[k].Consistent() && all[k].Rec() == w.txns[k] {
      if all[k] in ts {
        var i :| 0 <= i < |ts| && ts[i] == all[k];
        assert w.pool[i] == k;
      } else {
        assert Others(all, ts)[id := t][k] == all[k];
      }
    }
  }

  lemma {:induction false} InPool(ids: seq<nat>, ts: seq<Transaction>, all: map<nat, Transaction>, t: Transaction)
    requires Names(ids, ts, all) && t !in all.Values
    ensures t !in ts
  {
    forall i | 0 <= i < |ts| ensures ts[i] != t { assert all[ids[i]] == ts[i]; }
  }

  function CommitAnswer(t: Transaction): (o: Outcome)
    requires t.Consistent()
    reads t, t.transaction
    ensures o == CommitGate(t.Rec())
  {
    if t.GetState() == Committed then AlreadyCommitted
    else if t.GetState() == Aborted then AbortedError
    else if t.destroyed then DestroyedError
    else NativeCommit
  }

  function AbortAnswer(t: Transaction): (o: Outcome)
    requires t.Consistent()
    reads t, t.transaction
    ensures o == AbortGate(t.Rec())
  {
    if t.GetState() == Committed then CommittedError
    else if t.GetState() == Aborted then AlreadyAborted
    else if t.destroyed then DestroyedError
    else NativeAbort
  }

  lemma {:induction false} GateSteps(w: World, id: nat)
    requires Inv(w) && id in w.txns
    ensures id in Tend(w).txns
    ensures Step(w, TxnSpec.Commit(id)) == (Tend(w), CommitGate(Tend(w).txns[id]))
    ensures Step(w, TxnSpec.Abort(id)) == (Tend(w), AbortGate(Tend(w).txns[id]))
  {
    TendInv(w);
  }

  /** The answer for each state of a transaction. */
  function Told(s: State, destroyed: bool, committed: Outcome, aborted: Outcome, native: Outcome): Outcome {
    match s
    case Committed => committed
    case Aborted => aborted
    case _ => if destroyed then DestroyedError else native
  }

  lemma {:induction false} Answers(w: World, id: nat)
    requires Inv(w) && id in w.txns
    ensures var s, gone := View(w.txns[id]).state, w.txns[id].closed.Some?;
      && Step(w, TxnSpec.Commit(id)).1 == Told(s, gone, AlreadyCommitted, AbortedError, NativeCommit)
      && Step(w, TxnSpec.Abort(id)).1 == Told(s, gone, CommittedError, AlreadyAborted, NativeAbort)
  {
    if View(w.txns[id]).state in {Committed, Aborted} { R.FinishedAnswer(w, id); } else { R.UnfinishedAnswer(w, id); }
  }

  method Commit(pool: TransactionPool, t: Transaction, ghost id: nat, ghost all: map<nat, Transaction>, ghost w: World)
    returns (o: Outcome, ghost w': World)
    requires Shows(pool, all, w) && id in all && all[id] == t
    modifies pool, pool.transactions, NativesOf(pool.transactions)`released
    ensures Shows(pool, all, w') && (w', o) == Step(w, TxnSpec.Commit(id))
    ensures o == Told(old(t.GetState()), old(t.destroyed), AlreadyCommitted, AbortedError, NativeCommit)
  {
    Tended(pool, all, w);
    TendInv(w);
    w' := Tend(w);
    o := CommitAnswer(t);
    GateSteps(w, id);
    Answers(w, id);
  }

  method Abort(pool: TransactionPool, t: Transaction, ghost id: nat, ghost all: map<nat, Transaction>, ghost w: World)
    returns (o: Outcome, ghost w': World)
    requires Shows(pool, all, w) && id in all && all[id] == t
    modifies pool, pool.transactions, NativesOf(pool.transactions)`released
    ensures Shows(pool, all, w') && (w', o) == Step(w, TxnSpec.Abort(id))
    ensures o == Told(old(t.GetState()), old(t.destroyed), CommittedError, AlreadyAborted, NativeAbort)
  {
    Tended(pool, all, w);
    TendInv(w);
    w' := Tend(w);
    o := AbortAnswer(t);
    GateSteps(w, id);
    Answers(w, id);
  }

  function NativeChanged(w: World, id: nat, to: Native): World
    requires id in w.txns
  {
    w.(txns := w.txns[id := w.txns[id].(native := to)])
  }

  ghost function Rest(all: map<nat, Transaction>, id: nat): map<nat, Transaction> {
    map k | k in all && k != id :: all[k]
  }

  lemma {:induction false} RestAndOne(all: map<nat, Transaction>, txns: map<nat, Txn>, id: nat)
    requires Holds(Rest(all, id), txns) && id in all && id in txns
    requires all[id].Consistent() && all[id].Rec() == txns[id]
    ensures Holds(all, txns)
  {
    forall k | k in all && k != id ensures k in txns && all[k].Consistent() && all[k].Rec() == txns[k] {
      assert Rest(all, id)[k] == all[k];
    }
  }

  lemma {:induction false} RestSame(all: map<nat, Transaction>, txns: map<nat, Txn>, id: nat, t: Txn)
    requires Holds(Rest(all, id), txns)
    ensures Holds(Rest(all, id), txns[id := t])
  {
  }

  lemma {:induction false} OneChanged(pool: TransactionPool, all: map<nat, Transaction>, w: World, id: nat, to: Native)
    requires Inv(w) && w.txns.Keys == all.Keys && Injective(all) && (forall k | k in all :: all[k].pool == pool)
    requires pool.Valid() && Names(w.pool, pool.transactions, all) && w.capacity == pool.capacity
    requires id in all && Holds(Rest(all, id), w.txns)
    requires all[id].Consistent() && all[id].Rec() == w.txns[id].(native := to)
    ensures Shows(pool, all, NativeChanged(w, id, to))
  {
    NativeChangeInv(w, id, to);
    RestSame(all, w.txns, id, w.txns[id].(native := to));
    RestAndOne(all, NativeChanged(w, id, to).txns, id);
  }

  method SetTimeout(pool: TransactionPool, t: Transaction, timeout: int, ghost id: nat,
                    ghost all: map<nat, Transaction>, ghost w: World)
    returns (o: Outcome, ghost w': World)
    requires Shows(pool, all, w) && id in all && all[id] == t
    modifies t.transaction`timeout
    ensures Shows(pool, all, w') && (w', o) == Step(w, TxnSpec.SetTimeout(id, timeout))
  {
    o := TimeoutBeside(pool, t, timeout, Rest(all, id), w.txns);
    if o == CompleteError {
      w' := w;
      RestAndOne(all, w.txns, id);
    } else {
      w' := NativeChanged(w, id, w.txns[id].native.(timeout := timeout));
      OneChanged(pool, all, w, id, w.txns[id].native.(timeout := timeout));
    }
  }

  /** Other transactions stay as they are. */
  method TimeoutBeside(pool: TransactionPool, t: Transaction, timeout: int, ghost rest: map<nat, Transaction>,
                       ghost txns: map<nat, Txn>) returns (o: Outcome)
    requires t.Consistent() && pool.Valid() && Holds(rest, txns) && forall k | k in rest :: rest[k] != t
    modifies t.transaction`timeout
    ensures pool.Valid() && Holds(rest, txns) && t.Consistent()
    ensures o == if t.destroyed then CompleteError else TimeoutSet
    ensures t.Rec() == if t.destroyed then old(t.Rec())
                       else old(t.Rec()).(native := old(t.Rec()).native.(timeout := timeout))
  {
    o := t.SetTimeout(timeout);
  }

  method MoveBeside(pool: TransactionPool, t: Transaction, to: Native, ghost rest: map<nat, Transaction>,
                    ghost txns: map<nat, Txn>)
    requires t.Consistent() && pool.Valid() && Holds(rest, txns) && forall k | k in rest :: rest[k] != t
    modifies t.transaction`state, t.transaction`inDoubt, t.transaction`timeout
    ensures pool.Valid() && Holds(rest, txns) && t.Consistent() && t.Rec() == old(t.Rec()).(native := to)
  {
    t.transaction.Move(to);
  }

  method DestroyAll(pool: TransactionPool, ghost all: map<nat, Transaction>, ghost w: World)
    returns (ghost w': World)
    requires Shows(pool, all, w)
    modifies pool, pool.transactions, NativesOf(pool.transactions)`released
    ensures Shows(pool, all, w') && w' == RemoveAll(w) == Step(w, TxnSpec.DestroyAll).0
  {
    ghost var ts := pool.transactions;
    PoolMatches(w, ts, all);
    pool.RemoveBeside(Records(w), Others(all, ts), w.txns);
    AsRemoved(pool, w, ts, all);
    w' := RemoveAll(w);
  }

  lemma {:induction false} RemoveStep(w: World)
    requires Inv(w)
    ensures Inv(RemoveAll(w)) && Step(w, TxnSpec.DestroyAll).0 == RemoveAll(w)
  {
    RemoveAllInv(w);
  }

  lemma {:induction false} AsRemoved(pool: TransactionPool, w: World, ts: seq<Transaction>,
                                     all: map<nat, Transaction>)
    requires Inv(w) && Names(w.pool, ts, all) && Injective(all) && w.txns.Keys == all.Keys
    requires forall k | k in all :: all[k].pool == pool
    requires Matches(ts, Swept(ts, Records(w), set t | t in ts, |ts|)) && Holds(Others(all, ts), w.txns)
    requires pool.Valid() && pool.transactions == [] && pool.capacity == w.capacity
    ensures Shows(pool, all, RemoveAll(w)) && Step(w, TxnSpec.DestroyAll).0 == RemoveAll(w)
  {
    RemoveStep(w);
    RemovedHolds(w, ts, all);
  }

  lemma {:induction false} RemovedHolds(w: World, ts: seq<Transaction>, all: map<nat, Transaction>)
    requires Known(w) && Names(w.pool, ts, all) && Injective(all) && w.txns.Keys == all.Keys
    requires Matches(ts, Swept(ts, Records(w), set t | t in ts, |ts|)) && Holds(Others(all, ts), w.txns)
    ensures Holds(all, RemoveAll(w).txns)
  {
    AllAgree(w, ts, all);
    SweptHolds(w, ts, all, set id | id in w.pool, set t | t in ts);
  }

  lemma {:induction false} AllAgree(w: World, ts: seq<Transaction>, all: map<nat, Transaction>)
    requires Names(w.pool, ts, all)
    ensures GoneAgree(w, ts, set id | id in w.pool, set t | t in ts)
  {
  }

  /** The native side changes a transaction on its own. */
  method NativeMoves(pool: TransactionPool, t: Transaction, to: Native, ghost id: nat,
                     ghost all: map<nat, Transaction>, ghost w: World)
    returns (ghost w': World)
    requires Shows(pool, all, w) && id in all && all[id] == t
    modifies t.transaction`state, t.transaction`inDoubt, t.transaction`timeout
    ensures Shows(pool, all, w') && w' == Step(w, TxnSpec.NativeMoves(id, to)).0
  {
    MoveBeside(pool, t, to, Rest(all, id), w.txns);
    w' := NativeChanged(w, id, to);
    OneChanged(pool, all, w, id, to);
  }
}
