/** The classes of lib/transaction.js and lib/transaction_pool.js with their fields, proved against
    the values of TxnSpec. */
module TxnPool {
  import opened Prelude
  import opened TxnSpec

  /** The handle of the native add-on. Its answers change on their own between calls; it must not
      be closed twice. */
  class NativeTransaction {
    var state: State
    var inDoubt: bool
    var timeout: int
    var released: bool
    ghost var owner: Transaction?

    constructor ()
      ensures state == Open && !inDoubt && timeout == 0 && !released
    {
      state, inDoubt, timeout, released := Open, false, 0, false;
    }

    /** The native side at work. */
    method Move(to: Native)
      modifies `state, `inDoubt, `timeout
      ensures Native(state, inDoubt, timeout) == to
    {
      state, inDoubt, timeout := to.state, to.inDoubt, to.timeout;
    }

    method Close()
      requires !released
      modifies `released
      ensures released
    {
      released := true;
    }
  }

  class Transaction {
    const readsCapacity: nat
    const writesCapacity: nat
    const pool: TransactionPool
    const transaction: NativeTransaction
    var destroyed: bool
    var state: Option<State>
    var inDoubt: Option<bool>
    var timeout: Option<int>

    /** The snapshot fields are null until the transaction is closed; the native handle, which no
        other transaction has, is closed exactly then. */
    ghost predicate Consistent()
      reads this, transaction`released, transaction`owner
    {
      && destroyed == state.Some? && destroyed == inDoubt.Some? && destroyed == timeout.Some?
      && transaction.released == destroyed && transaction.owner == this
    }

    ghost function Live(): Native
      reads transaction`state, transaction`inDoubt, transaction`timeout
    {
      Native(transaction.state, transaction.inDoubt, transaction.timeout)
    }

    /** This transaction as a value. */
    ghost function Rec(): Txn
      requires Consistent()
      reads this, transaction
    {
      Txn(readsCapacity, writesCapacity, Live(),
          if destroyed then Some(Native(state.value, inDoubt.value, timeout.value)) else None)
    }

    constructor (readsCapacity: nat, writesCapacity: nat, pool: TransactionPool, transaction: NativeTransaction)
      requires !transaction.released
      modifies transaction`owner
      ensures this.readsCapacity == readsCapacity && this.writesCapacity == writesCapacity
      ensures this.pool == pool && this.transaction == transaction && !destroyed && Consistent()
    {
      this.readsCapacity, this.writesCapacity := readsCapacity, writesCapacity;
      this.pool, this.transaction := pool, transaction;
      destroyed, state, inDoubt, timeout := false, None, None, None;
      new;
      transaction.owner := this;
    }

    function GetState(): (s: State)
      requires Consistent()
      reads this, transaction
      ensures s == View(Rec()).state
    {
      if destroyed then state.value else transaction.state
    }

    function GetInDoubt(): (b: bool)
      requires Consistent()
      reads this, transaction
      ensures b == View(Rec()).inDoubt
    {
      if destroyed then inDoubt.value else transaction.inDoubt
    }

    function GetTimeout(): (t: int)
      requires Consistent()
      reads this, transaction
      ensures t == View(Rec()).timeout
    {
      if destroyed then timeout.value else transaction.timeout
    }

    method SetTimeout(t: int) returns (o: Outcome)
      requires Consistent()
      modifies transaction`timeout
      ensures Consistent() && o == if destroyed then CompleteError else TimeoutSet
      ensures destroyed ==> Rec() == old(Rec())
      ensures !destroyed ==> Rec() == old(Rec()).(native := old(Rec()).native.(timeout := t))
    {
      if destroyed { return CompleteError; }
      transaction.timeout := t;
      return TimeoutSet;
    }

    /** Takes the snapshot; the native handle is still to be closed. */
    method PrepareToClose()
      requires Consistent() && !destroyed
      modifies this, pool`totalReadsAndWrites
      ensures destroyed && state == Some(transaction.state)
      ensures inDoubt == Some(transaction.inDoubt) && timeout == Some(transaction.timeout)
      ensures pool.totalReadsAndWrites == old(pool.totalReadsAndWrites) - (readsCapacity + writesCapacity)
    {
      timeout := Some(transaction.timeout);
      inDoubt := Some(transaction.inDoubt);
      state := Some(transaction.state);
      pool.totalReadsAndWrites := pool.totalReadsAndWrites - (writesCapacity + readsCapacity);
      destroyed := true;
    }

    method Shut()
      requires Consistent()
      modifies this, pool`totalReadsAndWrites, transaction`released
      ensures Consistent() && destroyed && Rec() == Close(old(Rec()))
      ensures pool.totalReadsAndWrites
        == old(pool.totalReadsAndWrites) - if old(destroyed) then 0 else readsCapacity + writesCapacity
    {
      if !destroyed {
        PrepareToClose();
        transaction.Close();
      }
    }
  }

  // Lists of transactions as lists of values.

  ghost function NativesOf(ts: seq<Transaction>): set<NativeTransaction> {
    set t | t in ts :: t.transaction
  }

  /** The values of a list of transactions. */
  ghost predicate Matches(ts: seq<Transaction>, rs: seq<Txn>)
    reads ts, NativesOf(ts)
  {
    |ts| == |rs| && forall i | 0 <= i < |ts| :: ts[i].Consistent() && ts[i].Rec() == rs[i]
  }

  /** The transactions of a program and their values. */
  ghost predicate Holds(all: map<nat, Transaction>, txns: map<nat, Txn>)
    reads all.Values, NativesIn(all)
  {
    forall id | id in all :: id in txns && all[id].Consistent() && all[id].Rec() == txns[id]
  }

  ghost function NativesIn(all: map<nat, Transaction>): set<NativeTransaction> {
    set id | id in all :: all[id].transaction
  }

  /** The records of a list, with those of the chosen transactions before position `i` closed. */
  ghost function Swept(ts: seq<Transaction>, rs: seq<Txn>, chosen: set<Transaction>, i: nat): (r: seq<Txn>)
    requires |ts| == |rs|
    ensures |r| == |rs|
  {
    seq(|rs|, j requires 0 <= j < |rs| => if j < i && ts[j] in chosen then Close(rs[j]) else rs[j])
  }

  lemma {:induction false} SweptNext(ts: seq<Transaction>, rs: seq<Txn>, chosen: set<Transaction>, i: nat)
    requires |ts| == |rs| && i < |ts|
    ensures Swept(ts, rs, chosen, 0) == rs && Swept(ts, rs, chosen, i)[i] == rs[i]
    ensures Swept(ts, rs, chosen, i + 1)
         == Swept(ts, rs, chosen, i)[i := if ts[i] in chosen then Close(rs[i]) else rs[i]]
  {
  }

  lemma {:induction false} SumNext(ts: seq<Transaction>, chosen: set<Transaction>, i: nat)
    requires i < |ts|
    ensures SumOf(ts[..i + 1]) == SumOf(ts[..i]) + ts[i].readsCapacity + ts[i].writesCapacity
    ensures SumIn(ts[..i + 1], chosen)
         == SumIn(ts[..i], chosen) + if ts[i] in chosen then ts[i].readsCapacity + ts[i].writesCapacity else 0
    ensures Collected(ts[..i + 1], chosen) == (if ts[i] in chosen then [i] else []) + Collected(ts[..i], chosen)
  {
    assert ts[..i + 1][..i] == ts[..i];
  }

  ghost function Done(ts: seq<Transaction>, rs: seq<Txn>): set<Transaction>
    requires |ts| == |rs|
  {
    set j | 0 <= j < |ts| && Completed(rs[j]) :: ts[j]
  }

  ghost function SumOf(ts: seq<Transaction>): nat {
    if ts == [] then 0
    else SumOf(ts[..|ts| - 1]) + ts[|ts| - 1].readsCapacity + ts[|ts| - 1].writesCapacity
  }

  /** The summed capacity of the chosen transactions. */
  ghost function SumIn(ts: seq<Transaction>, chosen: set<Transaction>): nat {
    if ts == [] then 0
    else SumIn(ts[..|ts| - 1], chosen)
         + if ts[|ts| - 1] in chosen then ts[|ts| - 1].readsCapacity + ts[|ts| - 1].writesCapacity else 0
  }

  lemma {:induction false} SumSplits(ts: seq<Transaction>, gone: set<Transaction>)
    ensures SumOf(Without(ts, gone)) + SumIn(ts, gone) == SumOf(ts)
  {
    if ts != [] {
      var n, x := |ts| - 1, ts[|ts| - 1];
      var front := Without(ts[..n], gone);
      SumSplits(ts[..n], gone);
      if x in gone {
        assert Without(ts, gone) == front;
      } else {
        assert Without(ts, gone)[..|front|] == front;
      }
    }
  }

  class TransactionPool {
    var transactions: seq<Transaction>
    var capacity: nat
    var totalReadsAndWrites: int

    /** Every pooled transaction is pooled once and not destroyed, and the running total is
        the sum of their capacities. */
    ghost predicate Valid()
      reads this, transactions, NativesOf(transactions)`released, NativesOf(transactions)`owner
    {
      && Mine(transactions) && Undestroyed(transactions, {})
      && totalReadsAndWrites == SumOf(transactions)
    }

    ghost predicate Mine(ts: seq<Transaction>) {
      Distinct(ts) && forall i | 0 <= i < |ts| :: ts[i].pool == this
    }

    ghost predicate Undestroyed(ts: seq<Transaction>, except: set<Transaction>)
      reads ts, NativesOf(ts)`released, NativesOf(ts)`owner
    {
      forall i | 0 <= i < |ts| :: ts[i].Consistent() && (ts[i] !in except ==> !ts[i].destroyed)
    }

    constructor (capacity: nat := 128)
      ensures Valid() && transactions == [] && this.capacity == capacity
    {
      transactions := [];
      this.capacity := capacity;
      totalReadsAndWrites := 0;
    }

    method RemoveTransactions(indices: seq<int>)
      modifies this`transactions
      ensures transactions == SpliceAll(old(transactions), indices)
    {
      var k := 0;
      assert indices[0..] == indices;
      while k < |indices|
        invariant 0 <= k <= |indices|
        invariant SpliceAll(transactions, indices[k..]) == SpliceAll(old(transactions), indices)
      {
        var index := indices[k];
        assert indices[k..][1..] == indices[k + 1..];
        if index >= 0 && index < |transactions| {
          transactions := transactions[..index] + transactions[index + 1..];
        }
        k := k + 1;
      }
    }

    /** Closing one pooled transaction leaves the others alone. */
    method CloseAt(i: nat, ghost rs: seq<Txn>)
      requires Mine(transactions) && Matches(transactions, rs) && i < |transactions| && rs[i].closed.None?
      modifies transactions, `totalReadsAndWrites, NativesOf(transactions)`released
      ensures Matches(transactions, rs[i := Close(rs[i])])
      ensures totalReadsAndWrites
        == old(totalReadsAndWrites) - (transactions[i].readsCapacity + transactions[i].writesCapacity)
    {
      assert transactions[i].Rec() == rs[i];
      assert forall j | 0 <= j < |transactions| && j != i :: transactions[j] != transactions[i];
      transactions[i].Shut();
    }

    /** Closes all pooled transactions and empties the pool: the total is 0. */
    method RemoveAllTransactions(ghost rs: seq<Txn>)
      requires Valid() && Matches(transactions, rs)
      modifies this, transactions, NativesOf(transactions)`released
      ensures Valid() && transactions == [] && totalReadsAndWrites == 0 && capacity == old(capacity)
      ensures var ts := old(transactions); Matches(ts, Swept(ts, rs, set t | t in ts, |ts|))
    {
      CloseAll(rs);
      transactions := [];
    }

    method RemoveBeside(ghost rs: seq<Txn>, ghost others: map<nat, Transaction>, ghost txns: map<nat, Txn>)
      requires Valid() && Matches(transactions, rs) && Holds(others, txns)
      requires forall id | id in others :: others[id] !in transactions
      modifies this, transactions, NativesOf(transactions)`released
      ensures Valid() && transactions == [] && totalReadsAndWrites == 0 && capacity == old(capacity)
      ensures var ts := old(transactions); Matches(ts, Swept(ts, rs, set t | t in ts, |ts|))
      ensures Holds(others, txns)
    {
      Apart(others, transactions);
      RemoveAllTransactions(rs);
    }

    method CloseAll(ghost rs: seq<Txn>)
      requires Valid() && Matches(transactions, rs)
      modifies transactions, `totalReadsAndWrites, NativesOf(transactions)`released
      ensures var ts := transactions; Matches(ts, Swept(ts, rs, set t | t in ts, |ts|))
      ensures totalReadsAndWrites == 0
    {
      ghost var ts := transactions;
      ghost var all := set t | t in ts;
      NothingSwept(ts, rs, all);
      var i := 0;
      while i < |transactions|
        invariant 0 <= i <= |ts|
        invariant Matches(ts, Swept(ts, rs, all, i))
        invariant totalReadsAndWrites == SumOf(ts) - SumOf(ts[..i])
      {
        ShutAt(i, rs, all);
        i := i + 1;
      }
      AllTaken(ts);
    }

    method ShutAt(i: nat, ghost rs: seq<Txn>, ghost all: set<Transaction>)
      requires Mine(transactions) && |rs| == |transactions| && i < |rs| && rs[i].closed.None?
      requires Matches(transactions, Swept(transactions, rs, all, i)) && transactions[i] in all
      modifies transactions, `totalReadsAndWrites, NativesOf(transactions)`released
      ensures Matches(transactions, Swept(transactions, rs, all, i + 1))
      ensures totalReadsAndWrites - old(totalReadsAndWrites) == SumOf(transactions[..i]) - SumOf(transactions[..i + 1])
    {
      SumNext(transactions, all, i);
      SweptNext(transactions, rs, all, i);
      CloseAt(i, Swept(transactions, rs, all, i));
    }

    lemma {:induction false} NothingSwept(ts: seq<Transaction>, rs: seq<Txn>, gone: set<Transaction>)
      requires Undestroyed(ts, {}) && Matches(ts, rs)
      ensures Swept(ts, rs, gone, 0) == rs
      ensures forall j | 0 <= j < |ts| :: rs[j] == ts[j].Rec() && rs[j].closed.None?
    {
    }

    lemma AllTaken(ts: seq<Transaction>)
      ensures ts[..|ts|] == ts
    {
    }

    /** The state that tending leaves, given the list, its values and the capacity before. */
    ghost predicate TendedFrom(ts: seq<Transaction>, rs: seq<Txn>, cap: nat)
      requires |ts| == |rs|
      reads this, ts, NativesOf(ts)
    {
      var over, gone := |ts| > cap, Done(ts, rs);
      && transactions == (if over then Without(ts, gone) else ts)
      && Matches(ts, if over then Swept(ts, rs, gone, |ts|) else rs)
      && capacity == (if over && |transactions| > cap then 2 * cap else cap)
    }

    /** Tend refines filter: if the pool is over capacity, exactly the completed transactions
        are closed and taken out, the rest keep their order and their state, and the capacity
        doubles exactly when the rest still exceed it. */
    method TendTransactions(ghost rs: seq<Txn>)
      requires Valid() && Matches(transactions, rs)
      modifies this, transactions, NativesOf(transactions)`released
      ensures Valid() && TendedFrom(old(transactions), rs, old(capacity))
      ensures totalReadsAndWrites <= old(totalReadsAndWrites)
    {
      if |transactions| > capacity {
        ghost var ts, gone := transactions, Done(transactions, rs);
        var indices := CloseCompleted(rs);
        ghost var after := Swept(ts, rs, gone, |ts|);
        TakeOut(indices, gone, after);
        IncreaseCapacity(ts, after);
      }
    }

    method IncreaseCapacity(ghost ts: seq<Transaction>, ghost rs: seq<Txn>)
      requires Valid() && Matches(ts, rs)
      modifies `capacity
      ensures Valid() && Matches(ts, rs)
      ensures capacity == if |transactions| > old(capacity) then 2 * old(capacity) else old(capacity)
    {
      if |transactions| > capacity {
        capacity := capacity * 2;
      }
    }

    /** Removing the collected indices takes out the closed transactions. */
    method TakeOut(indices: seq<int>, ghost gone: set<Transaction>, ghost rs: seq<Txn>)
      requires Matches(transactions, rs) && indices == Collected(transactions, gone)
      requires Mine(transactions) && Undestroyed(transactions, gone)
      requires totalReadsAndWrites == SumOf(transactions) - SumIn(transactions, gone)
      modifies `transactions
      ensures transactions == Without(old(transactions), gone) && Valid() && Matches(old(transactions), rs)
    {
      ghost var ts := transactions;
      assert ts + [] == ts && Without(ts, gone) + [] == Without(ts, gone);
      SpliceIsFilter(ts, gone, []);
      RemoveTransactions(indices);
      SurvivorsValid(ts, gone);
    }

    /** After the completed transactions have been closed, the rest are as a pool should be. */
    lemma {:induction false} SurvivorsValid(ts: seq<Transaction>, gone: set<Transaction>)
      requires Mine(ts) && Undestroyed(ts, gone)
      requires transactions == Without(ts, gone) && totalReadsAndWrites == SumOf(ts) - SumIn(ts, gone)
      ensures Valid()
    {
      WithoutFacts(ts, gone);
      SumSplits(ts, gone);
      forall i | 0 <= i < |transactions|
        ensures transactions[i].pool == this && transactions[i].Consistent() && !transactions[i].destroyed
      {
        assert transactions[i] in Without(ts, gone);
      }
    }

    /** The loop of `tendTransactions`. */
    method CloseCompleted(ghost rs: seq<Txn>) returns (indices: seq<int>)
      requires Valid() && Matches(transactions, rs)
      modifies transactions, `totalReadsAndWrites, NativesOf(transactions)`released
      ensures var ts := transactions; var gone := Done(ts, rs);
        && indices == Collected(ts, gone) && Matches(ts, Swept(ts, rs, gone, |ts|))
        && Undestroyed(ts, gone) && totalReadsAndWrites == SumOf(ts) - SumIn(ts, gone)
    {
      ghost var gone := Done(transactions, rs);
      NothingSwept(transactions, rs, gone);
      DoneFlags(transactions, rs);
      indices := Sweep(rs, gone);
      SweptUndestroyed(transactions, rs, gone);
    }

    method Sweep(ghost rs: seq<Txn>, ghost gone: set<Transaction>) returns (indices: seq<int>)
      requires Mine(transactions) && |rs| == |transactions| && Matches(transactions, Swept(transactions, rs, gone, 0))
      requires forall j | 0 <= j < |rs| :: rs[j].closed.None? && (transactions[j] in gone <==> Completed(rs[j]))
      modifies transactions, `totalReadsAndWrites, NativesOf(transactions)`released
      ensures var ts := transactions;
        && indices == Collected(ts, gone) && Matches(ts, Swept(ts, rs, gone, |ts|))
        && totalReadsAndWrites == old(totalReadsAndWrites) - SumIn(ts, gone)
    {
      indices := [];
      var i := 0;
      while i < |transactions|
        invariant 0 <= i <= |transactions|
        invariant indices == Collected(transactions[..i], gone)
        invariant Matches(transactions, Swept(transactions, rs, gone, i))
        invariant totalReadsAndWrites == old(totalReadsAndWrites) - SumIn(transactions[..i], gone)
      {
        indices := TendAt(i, indices, rs, gone);
        i := i + 1;
      }
      AllTaken(transactions);
    }

    method TendAt(i: nat, indices: seq<int>, ghost rs: seq<Txn>, ghost gone: set<Transaction>)
      returns (indices': seq<int>)
      requires Mine(transactions) && |rs| == |transactions| && i < |rs| && rs[i].closed.None?
      requires Matches(transactions, Swept(transactions, rs, gone, i))
      requires transactions[i] in gone <==> Completed(rs[i])
      requires indices == Collected(transactions[..i], gone)
      modifies transactions, `totalReadsAndWrites, NativesOf(transactions)`released
      ensures Matches(transactions, Swept(transactions, rs, gone, i + 1))
      ensures indices' == Collected(transactions[..i + 1], gone)
      ensures totalReadsAndWrites - old(totalReadsAndWrites)
        == SumIn(transactions[..i], gone) - SumIn(transactions[..i + 1], gone)
    {
      indices' := indices;
      SumNext(transactions, gone, i);
      SweptNext(transactions, rs, gone, i);
      assert transactions[i].Rec() == rs[i];
      var state := transactions[i].GetState();
      if state == Committed || state == Aborted {
        CloseAt(i, Swept(transactions, rs, gone, i));
        indices' := [i] + indices';
      }
    }

    lemma {:induction false} DoneFlags(ts: seq<Transaction>, rs: seq<Txn>)
      requires |ts| == |rs| && Mine(ts)
      ensures forall j | 0 <= j < |ts| :: ts[j] in Done(ts, rs) <==> Completed(rs[j])
    {
    }

    lemma {:induction false} SweptUndestroyed(ts: seq<Transaction>, rs: seq<Txn>, gone: set<Transaction>)
      requires |ts| == |rs| && (forall j | 0 <= j < |ts| :: rs[j].closed.None?)
      requires Matches(ts, Swept(ts, rs, gone, |ts|))
      ensures Undestroyed(ts, gone)
    {
      forall j | 0 <= j < |ts| ensures ts[j].Consistent() && (ts[j] !in gone ==> !ts[j].destroyed) {
        assert ts[j].Rec() == Swept(ts, rs, gone, |ts|)[j];
      }
    }

    /** `pushTransaction`: up to the limit, the transaction is pushed and counted. Above it
        the pool is tended, and the transaction is then left out even if there is room. Neither
        touches transactions that are not pooled, `t` among them. */
    method PushTransaction(t: Transaction, ghost rs: seq<Txn>, ghost others: map<nat, Transaction>,
                           ghost txns: map<nat, Txn>) returns (o: Outcome)
      requires Valid() && Matches(transactions, rs) && Holds(others, txns)
      requires forall id | id in others :: others[id] !in transactions
      requires t.pool == this && t in others.Values && !t.destroyed
      modifies this, transactions, NativesOf(transactions)`released
      ensures Valid() && Holds(others, txns)
      ensures o == if old(totalReadsAndWrites) <= READ_WRITE_LIMIT then Created(true)
                   else if totalReadsAndWrites > READ_WRITE_LIMIT then PoolFull else Created(false)
      ensures if o == Created(true)
              then transactions == old(transactions) + [t] && Matches(old(transactions), rs)
                   && capacity == old(capacity)
              else TendedFrom(old(transactions), rs, old(capacity))
    {
      if totalReadsAndWrites > READ_WRITE_LIMIT {
        TendBeside(rs, others, txns);
        if totalReadsAndWrites > READ_WRITE_LIMIT { return PoolFull; }
        return Created(false);
      } else {
        Count(t, rs);
        return Created(true);
      }
    }

    /** Tending leaves transactions that are not pooled alone. */
    method TendBeside(ghost rs: seq<Txn>, ghost others: map<nat, Transaction>, ghost txns: map<nat, Txn>)
      requires Valid() && Matches(transactions, rs) && Holds(others, txns)
      requires forall id | id in others :: others[id] !in transactions
      modifies this, transactions, NativesOf(transactions)`released
      ensures Valid() && TendedFrom(old(transactions), rs, old(capacity)) && Holds(others, txns)
    {
      Apart(others, transactions);
      TendTransactions(rs);
    }

    /** Different transactions have different handles. */
    lemma {:induction false} Apart(others: map<nat, Transaction>, ts: seq<Transaction>)
      requires forall id | id in others :: others[id].Consistent() && others[id] !in ts
      requires forall i | 0 <= i < |ts| :: ts[i].Consistent()
      ensures forall id | id in others :: others[id].transaction !in NativesOf(ts)
    {
    }

    method Count(t: Transaction, ghost rs: seq<Txn>)
      requires Valid() && Matches(transactions, rs)
      requires t.pool == this && t.Consistent() && !t.destroyed && t !in transactions
      modifies `totalReadsAndWrites, `transactions
      ensures Valid() && transactions == old(transactions) + [t] && Matches(old(transactions), rs)
      ensures totalReadsAndWrites == old(totalReadsAndWrites) + t.readsCapacity + t.writesCapacity
    {
      totalReadsAndWrites := totalReadsAndWrites + (t.readsCapacity + t.writesCapacity);
      transactions := transactions + [t];
      assert transactions[..|transactions| - 1] == old(transactions);
    }
  }

  /** A transaction and its native handle, not yet pooled. */
  method Make(pool: TransactionPool, r: nat, w: nat) returns (t: Transaction)
    ensures fresh(t) && fresh(t.transaction) && t.pool == pool && t.Consistent() && !t.destroyed
    ensures t.Rec() == Txn(r, w, Native(Open, false, 0), None)
  {
    var native := new NativeTransaction();
    t := new Transaction(r, w, pool, native);
  }
}
