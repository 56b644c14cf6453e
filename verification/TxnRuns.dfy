/** Closing completed transactions behind the user's back cannot be observed through the
    getters, `commit` or `abort`: a simulation between the program as it is and a reference
    program that never tends its pool. */
module TxnRuns {
  import opened Prelude
  import opened TxnSpec

  /** The reference program: the same transactions, and those that were pushed to the pool and
      not yet destroyed by the user. It is told whether a construction succeeded, since only
      the real pool has a limit. */
  datatype Ref = Ref(txns: map<nat, Txn>, pool: set<nat>)

  function RefStep(r: Ref, e: Event, made: Outcome): (Ref, Outcome) {
    match e
    case Create(id, readCap, writeCap, initial) =>
      if made.Created? && readCap >= 0 && writeCap >= 0 then
        (Ref(r.txns[id := Txn(readCap, writeCap, initial, None)], if made.pooled then r.pool + {id} else r.pool), made)
      else (r, made)
    case NativeMoves(id, to) =>
      if id in r.txns then (r.(txns := r.txns[id := r.txns[id].(native := to)]), Quiet) else (r, Quiet)
    case Commit(id) => (r, if id in r.txns then CommitGate(r.txns[id]) else NotATransaction)
    case Abort(id) => (r, if id in r.txns then AbortGate(r.txns[id]) else NotATransaction)
    case SetTimeout(id, timeout) =>
      if id !in r.txns then (r, NotATransaction)
      else if r.txns[id].closed.Some? then (r, CompleteError)
      else (r.(txns := r.txns[id := r.txns[id].(native := r.txns[id].native.(timeout := timeout))]), TimeoutSet)
    case DestroyAll => (Ref(CloseThose(r.txns, r.pool), {}), Quiet)
  }

  /** The transactions that tending has closed: gone from the real pool only. */
  predicate Tended(w: World, r: Ref, id: nat) { id in r.pool && id !in w.pool }

  ghost predicate Sim(w: World, r: Ref) {
    && w.txns.Keys == r.txns.Keys && r.pool <= r.txns.Keys
    && (forall id | id in w.pool :: id in r.pool)
    && (forall id | id in r.pool :: r.txns[id].closed.None?)
    && (forall id | id in w.txns && !Tended(w, r, id) :: w.txns[id] == r.txns[id])
    && (forall id | id in w.txns && Tended(w, r, id) ::
          Completed(r.txns[id]) && w.txns[id] == Close(r.txns[id]))
  }

  /** Completed states are final: the native side does not change them any more. */
  predicate Final(w: World, e: Event) {
    e.NativeMoves? && e.id in w.txns && Completed(w.txns[e.id]) ==> e.to == w.txns[e.id].native
  }

  /** The program does not set the timeout of a transaction that tending has closed: one that is
      destroyed although it is not among those, `gone`, that existed when the program last
      destroyed all its transactions. */
  predicate Careful(w: World, gone: set<nat>, e: Event) {
    e.SetTimeout? && e.id in w.txns && w.txns[e.id].closed.Some? ==> e.id in gone
  }

  function GoneAfter(w: World, gone: set<nat>, e: Event): set<nat> { if e.DestroyAll? then w.txns.Keys else gone }

  /** Destroyed transactions that the reference program does not know any more are those that
      the program has destroyed itself. */
  ghost predicate OwnWork(w: World, r: Ref, gone: set<nat>) {
    && gone <= w.txns.Keys && gone !! r.pool
    && forall id | id in w.txns && w.txns[id].closed.Some? :: id in gone || id in r.pool
  }

  /** All three getters, and both gates, answer the same. */
  lemma {:induction false} SameAnswers(w: World, r: Ref, id: nat)
    requires Sim(w, r) && id in w.txns
    ensures View(w.txns[id]) == View(r.txns[id])
    ensures CommitGate(w.txns[id]) == CommitGate(r.txns[id])
    ensures AbortGate(w.txns[id]) == AbortGate(r.txns[id])
  {
  }

  lemma {:induction false} TendSim(w: World, r: Ref)
    requires Inv(w) && Sim(w, r)
    ensures Sim(Tend(w), r)
  {
    if |w.pool| > w.capacity {
      WithoutFacts(w.pool, PooledCompleted(w));
    }
  }

  lemma {:induction false} ChangeSim(w: World, r: Ref, id: nat, to: Native)
    requires Sim(w, r) && id in w.txns && (Completed(w.txns[id]) ==> to == w.txns[id].native)
    ensures Sim(w.(txns := w.txns[id := w.txns[id].(native := to)]),
                r.(txns := r.txns[id := r.txns[id].(native := to)]))
  {
  }

  lemma {:induction false} AddSim(w: World, r: Ref, id: nat, t: Txn, pooled: bool)
    requires Inv(w) && Sim(w, r) && id !in w.txns && t.closed.None?
    ensures Sim(Add(w, id, t, pooled), Ref(r.txns[id := t], if pooled then r.pool + {id} else r.pool))
  {
    assert id !in w.pool && id !in r.pool;
    var p := Add(w, id, t, pooled).pool;
    assert forall x :: x in p <==> x in w.pool || (pooled && x == id);
  }

  lemma {:induction false} ConstructSim(w: World, r: Ref, id: nat, t: Txn)
    requires Inv(w) && Sim(w, r) && id !in w.txns && t.closed.None?
    ensures var (w', o) := Construct(w, id, t);
      Sim(w', if o.Created? then Ref(r.txns[id := t], if o.pooled then r.pool + {id} else r.pool) else r)
  {
    if w.total <= READ_WRITE_LIMIT {
      AddSim(w, r, id, t, true);
    } else {
      TendSim(w, r);
      TendInv(w);
      if Tend(w).total <= READ_WRITE_LIMIT { AddSim(Tend(w), r, id, t, false); }
    }
  }

  lemma {:induction false} SetTimeoutSim(w: World, r: Ref, id: nat, timeout: int)
    requires Sim(w, r) && id in w.txns && !Tended(w, r, id)
    ensures var e := SetTimeout(id, timeout);
      Known(w) ==> Step(w, e).1 == RefStep(r, e, Quiet).1 && Sim(Step(w, e).0, RefStep(r, e, Quiet).0)
  {
  }

  /** One step of both programs. If it is careful, the outcomes are the same and both are still
      indistinguishable; if not, the outcomes differ. */
  lemma {:induction false} StepSim(w: World, r: Ref, gone: set<nat>, e: Event)
    requires Inv(w) && Sim(w, r) && OwnWork(w, r, gone) && Final(w, e)
    ensures var (w', o) := Step(w, e); var (r', o') := RefStep(r, e, o);
      if Careful(w, gone, e) then o == o' && Sim(w', r') && OwnWork(w', r', GoneAfter(w, gone, e)) else o != o'
  {
    match e
    case Create(id, readCap, writeCap, initial) =>
      if id !in w.txns && IsUint32(readCap) && IsUint32(writeCap) {
        ConstructSim(w, r, id, Txn(readCap, writeCap, initial, None));
        ConstructOwn(w, r, gone, id, Txn(readCap, writeCap, initial, None));
      }
    case NativeMoves(id, to) =>
      if id in w.txns {
        ChangeSim(w, r, id, to);
        ChangeOwn(w, r, gone, id, to);
      }
    case Commit(id) =>
      GateSim(w, r, gone, id);
    case Abort(id) =>
      GateSim(w, r, gone, id);
    case SetTimeout(id, timeout) =>
      if id in w.txns && Careful(w, gone, e) {
        SetTimeoutSim(w, r, id, timeout);
        ChangeOwn(w, r, gone, id, w.txns[id].native.(timeout := timeout));
      }
    case DestroyAll =>
      DestroySim(w, r);
      DestroyOwn(w, r);
  }

  lemma {:induction false} ChangeOwn(w: World, r: Ref, gone: set<nat>, id: nat, to: Native)
    requires Sim(w, r) && OwnWork(w, r, gone) && id in w.txns
    ensures OwnWork(w.(txns := w.txns[id := w.txns[id].(native := to)]),
                    r.(txns := r.txns[id := r.txns[id].(native := to)]), gone)
  {
  }

  lemma {:induction false} DestroyOwn(w: World, r: Ref)
    requires Inv(w)
    ensures OwnWork(RemoveAll(w), Ref(CloseThose(r.txns, r.pool), {}), w.txns.Keys)
  {
  }

  lemma {:induction false} GateSim(w: World, r: Ref, gone: set<nat>, id: nat)
    requires Inv(w) && Sim(w, r) && OwnWork(w, r, gone)
    ensures Sim(Tend(w), r) && OwnWork(Tend(w), r, gone) && Tend(w).txns.Keys == w.txns.Keys == r.txns.Keys
    ensures id in w.txns ==> CommitGate(Tend(w).txns[id]) == CommitGate(r.txns[id])
    ensures id in w.txns ==> AbortGate(Tend(w).txns[id]) == AbortGate(r.txns[id])
  {
    TendSim(w, r);
    TendOwn(w, r, gone);
    if id in w.txns { SameAnswers(Tend(w), r, id); }
  }

  lemma {:induction false} TendOwn(w: World, r: Ref, gone: set<nat>)
    requires Inv(w) && Sim(w, r) && OwnWork(w, r, gone)
    ensures OwnWork(Tend(w), r, gone)
  {
  }

  lemma {:induction false} ConstructOwn(w: World, r: Ref, gone: set<nat>, id: nat, t: Txn)
    requires Inv(w) && Sim(w, r) && OwnWork(w, r, gone) && id !in w.txns && t.closed.None?
    ensures var (w', o) := Construct(w, id, t);
      OwnWork(w', if o.Created? then Ref(r.txns[id := t], if o.pooled then r.pool + {id} else r.pool) else r, gone)
  {
    TendOwn(w, r, gone);
  }

  lemma {:induction false} DestroySim(w: World, r: Ref)
    requires Inv(w) && Sim(w, r)
    ensures Sim(RemoveAll(w), Ref(CloseThose(r.txns, r.pool), {}))
  {
  }

  // Whole runs.

  ghost predicate FinalRun(w: World, es: seq<Event>)
    requires Inv(w)
    decreases |es|
  {
    es != [] ==> Final(w, es[0]) && (StepInv(w, es[0]); FinalRun(Step(w, es[0]).0, es[1..]))
  }

  ghost predicate CarefulRun(w: World, gone: set<nat>, es: seq<Event>)
    requires Inv(w)
    decreases |es|
  {
    es != [] ==>
      && Careful(w, gone, es[0])
      && (StepInv(w, es[0]); CarefulRun(Step(w, es[0]).0, GoneAfter(w, gone, es[0]), es[1..]))
  }

  /** The outcomes of a run, one for each event. */
  ghost function Outcomes(w: World, es: seq<Event>): seq<Outcome>
    requires Inv(w)
    decreases |es|
  {
    if es == [] then [] else
      StepInv(w, es[0]);
      [Step(w, es[0]).1] + Outcomes(Step(w, es[0]).0, es[1..])
  }

  /** The reference program on the same events, told the outcomes of the real one. */
  ghost function RefRun(r: Ref, es: seq<Event>, os: seq<Outcome>): Ref
    requires |os| == |es|
    decreases |es|
  {
    if es == [] then r else RefRun(RefStep(r, es[0], os[0]).0, es[1..], os[1..])
  }

  ghost function RefOutcomes(r: Ref, es: seq<Event>, os: seq<Outcome>): seq<Outcome>
    requires |os| == |es|
    decreases |es|
  {
    if es == [] then []
    else [RefStep(r, es[0], os[0]).1] + RefOutcomes(RefStep(r, es[0], os[0]).0, es[1..], os[1..])
  }

  lemma {:induction false} OutcomesLength(w: World, es: seq<Event>)
    requires Inv(w)
    ensures |Outcomes(w, es)| == |es|
    decreases |es|
  {
    if es != [] {
      StepInv(w, es[0]);
      OutcomesLength(Step(w, es[0]).0, es[1..]);
    }
  }

  /** Both programs answer the same throughout a run if and only if the run is careful, and then
      they are still indistinguishable. */
  lemma {:induction false} RunSim(w: World, r: Ref, gone: set<nat>, es: seq<Event>)
    requires Inv(w) && Sim(w, r) && OwnWork(w, r, gone) && FinalRun(w, es)
    ensures |Outcomes(w, es)| == |es|
    ensures RefOutcomes(r, es, Outcomes(w, es)) == Outcomes(w, es) <==> CarefulRun(w, gone, es)
    ensures CarefulRun(w, gone, es) ==> Sim(Run(w, es), RefRun(r, es, Outcomes(w, es)))
    decreases |es|
  {
    OutcomesLength(w, es);
    if es != [] {
      var (w', o) := Step(w, es[0]);
      var (r', o') := RefStep(r, es[0], o);
      StepInv(w, es[0]);
      StepSim(w, r, gone, es[0]);
      var os := Outcomes(w', es[1..]);
      OutcomesLength(w', es[1..]);
      assert Outcomes(w, es) == [o] + os && Outcomes(w, es)[1..] == os;
      assert RefOutcomes(r, es, Outcomes(w, es)) == [o'] + RefOutcomes(r', es[1..], os);
      if Careful(w, gone, es[0]) {
        RunSim(w', r', GoneAfter(w, gone, es[0]), es[1..]);
        SameTail(o, os, RefOutcomes(r', es[1..], os));
      } else {
        assert ([o] + os)[0] != ([o'] + RefOutcomes(r', es[1..], os))[0];
      }
    }
  }

  lemma {:induction false} SameTail<T>(x: T, a: seq<T>, b: seq<T>)
    ensures [x] + a == [x] + b <==> a == b
  {
    assert ([x] + a)[1..] == a && ([x] + b)[1..] == b;
  }

  /** Tending is invisible. From an empty pool of any capacity, in every run in which native
      completed states are final, all outcomes are what they would have been had the pool never
      been tended if and only if `setTimeout` is never called on a transaction that tending has
      closed; and then every transaction gives the same answers. */
  lemma {:induction false} TendingInvisible(capacity: nat, es: seq<Event>)
    requires FinalRun(Init(capacity), es)
    ensures var os := Outcomes(Init(capacity), es);
      && |os| == |es|
      && (RefOutcomes(Ref(map[], {}), es, os) == os <==> CarefulRun(Init(capacity), {}, es))
      && (CarefulRun(Init(capacity), {}, es) ==> SameWorlds(Run(Init(capacity), es), RefRun(Ref(map[], {}), es, os)))
  {
    var w, r := Init(capacity), Ref(map[], {});
    RunSim(w, r, {}, es);
    if CarefulRun(w, {}, es) {
      var w', r' := Run(w, es), RefRun(r, es, Outcomes(w, es));
      forall id | id in w'.txns
        ensures View(w'.txns[id]) == View(r'.txns[id])
        ensures CommitGate(w'.txns[id]) == CommitGate(r'.txns[id])
        ensures AbortGate(w'.txns[id]) == AbortGate(r'.txns[id])
      {
        SameAnswers(w', r', id);
      }
    }
  }

  /** The same transactions, with the same answers of getters, `commit` and `abort`. */
  ghost predicate SameWorlds(w: World, r: Ref) {
    && w.txns.Keys == r.txns.Keys
    && forall id | id in w.txns ::
         var a, b := w.txns[id], r.txns[id];
         View(a) == View(b) && CommitGate(a) == CommitGate(b) && AbortGate(a) == AbortGate(b)
  }

  /** A native commit or abort is for a transaction neither completed nor destroyed. */
  predicate SafeCall(w: World, e: Event, o: Outcome) {
    o == NativeCommit || o == NativeAbort ==>
      && (e.Commit? || e.Abort?) && e.id in w.txns
      && !Completed(w.txns[e.id]) && w.txns[e.id].closed.None?
  }

  lemma {:induction false} StepSafe(w: World, e: Event)
    requires Inv(w)
    ensures SafeCall(w, e, Step(w, e).1)
  {
    if e.Commit? || e.Abort? { TendInv(w); }
  }

  /** So it is in every run whatever, in the state in which the call is made. */
  lemma {:induction false} NativeCallsAreSafe(w: World, es: seq<Event>, i: nat)
    requires Inv(w) && i < |es|
    ensures |Outcomes(w, es)| == |es| && SafeCall(Run(w, es[..i]), es[i], Outcomes(w, es)[i])
    decreases |es|
  {
    OutcomesLength(w, es);
    StepInv(w, es[0]);
    if i == 0 {
      StepSafe(w, es[0]);
    } else {
      NativeCallsAreSafe(Step(w, es[0]).0, es[1..], i - 1);
      assert es[..i][1..] == es[1..][..i - 1] && es[..i][0] == es[0];
    }
  }

  // What the calls answer.

  /** Answers of a transaction that has been committed or aborted are final, whether tending has
      closed it or not: a commit of a committed one and an abort of an aborted one say so, the
      others throw. */
  lemma {:induction false} FinishedAnswers(w: World, es: seq<Event>, id: nat, i: nat)
    requires Inv(w) && FinalRun(w, es) && id in w.txns && View(w.txns[id]).state in {Committed, Aborted} && i < |es|
    ensures |Outcomes(w, es)| == |es|
    ensures es[i] == Commit(id) ==>
      Outcomes(w, es)[i] == if View(w.txns[id]).state == Committed then AlreadyCommitted else AbortedError
    ensures es[i] == Abort(id) ==>
      Outcomes(w, es)[i] == if View(w.txns[id]).state == Committed then CommittedError else AlreadyAborted
    decreases |es|
  {
    OutcomesLength(w, es);
    StepInv(w, es[0]);
    if i == 0 {
      FinishedAnswer(w, id);
    } else {
      StateStays(w, es[0], id);
      FinishedAnswers(Step(w, es[0]).0, es[1..], id, i - 1);
    }
  }

  lemma {:induction false} StateStays(w: World, e: Event, id: nat)
    requires Inv(w) && Final(w, e) && id in w.txns && View(w.txns[id]).state in {Committed, Aborted}
    ensures id in Step(w, e).0.txns && View(Step(w, e).0.txns[id]).state == View(w.txns[id]).state
  {
    TendKeepsView(w, id);
  }

  lemma {:induction false} TendKeepsView(w: World, id: nat)
    requires Inv(w) && id in w.txns
    ensures id in Tend(w).txns && View(Tend(w).txns[id]) == View(w.txns[id])
    ensures View(w.txns[id]).state !in {Committed, Aborted} ==> Tend(w).txns[id] == w.txns[id]
  {
    TendInv(w);
  }

  lemma {:induction false} FinishedAnswer(w: World, id: nat)
    requires Inv(w) && id in w.txns && View(w.txns[id]).state in {Committed, Aborted}
    ensures Step(w, Commit(id)).1 == if View(w.txns[id]).state == Committed then AlreadyCommitted else AbortedError
    ensures Step(w, Abort(id)).1 == if View(w.txns[id]).state == Committed then CommittedError else AlreadyAborted
  {
    TendKeepsView(w, id);
  }

  /** An unfinished transaction gets the native call if and only if it is not destroyed. */
  lemma {:induction false} UnfinishedAnswer(w: World, id: nat)
    requires Inv(w) && id in w.txns && View(w.txns[id]).state !in {Committed, Aborted}
    ensures Step(w, Commit(id)).1 == if w.txns[id].closed.Some? then DestroyedError else NativeCommit
    ensures Step(w, Abort(id)).1 == if w.txns[id].closed.Some? then DestroyedError else NativeAbort
  {
    TendKeepsView(w, id);
  }

  /** After the native side has committed or aborted a transaction that is not destroyed, every later
      commit and abort answers accordingly. */
  lemma {:induction false} AfterCompletion(w: World, id: nat, to: Native, es: seq<Event>, i: nat)
    requires Inv(w) && id in w.txns && w.txns[id].closed.None? && to.state in {Committed, Aborted} && i < |es|
    requires FinalRun(w, [NativeMoves(id, to)] + es)
    ensures |Outcomes(w, [NativeMoves(id, to)] + es)| == |es| + 1
    ensures var o := Outcomes(w, [NativeMoves(id, to)] + es)[i + 1];
      && (es[i] == Commit(id) ==> o == if to.state == Committed then AlreadyCommitted else AbortedError)
      && (es[i] == Abort(id) ==> o == if to.state == Committed then CommittedError else AlreadyAborted)
  {
    var all := [NativeMoves(id, to)] + es;
    assert all[1..] == es && all[0] == NativeMoves(id, to);
    OutcomesLength(w, all);
    StepInv(w, all[0]);
    FinishedAnswers(Step(w, all[0]).0, es, id, i);
  }

  /** What the getters show: of a transaction that is not destroyed what the native side and
      setTimeout have set last, of a destroyed one what they showed when it was destroyed, for ever. */
  lemma {:induction false} GettersShow(w: World, id: nat, to: Native, timeout: int)
    requires Inv(w) && id in w.txns
    ensures var moved, later := Step(w, NativeMoves(id, to)).0, Step(w, SetTimeout(id, timeout)).0;
      if w.txns[id].closed.None?
      then View(moved.txns[id]) == to && View(later.txns[id]) == View(w.txns[id]).(timeout := timeout)
      else View(moved.txns[id]) == View(w.txns[id]) && later == w
    ensures Step(w, SetTimeout(id, timeout)).1 == if w.txns[id].closed.None? then TimeoutSet else CompleteError
  {
  }

  lemma {:induction false} DestroyedFrozen(w: World, es: seq<Event>, id: nat)
    requires Inv(w) && id in w.txns && w.txns[id].closed.Some?
    ensures var w' := Run(w, es); id in w'.txns && w'.txns[id].closed.Some? && View(w'.txns[id]) == View(w.txns[id])
    decreases |es|
  {
    if es != [] {
      StepInv(w, es[0]);
      FrozenNow(w, es[0], id);
      DestroyedFrozen(Step(w, es[0]).0, es[1..], id);
    }
  }

  lemma {:induction false} FrozenNow(w: World, e: Event, id: nat)
    requires Inv(w) && id in w.txns && w.txns[id].closed.Some?
    ensures var w' := Step(w, e).0; id in w'.txns && w'.txns[id].closed.Some? && View(w'.txns[id]) == View(w.txns[id])
  {
    var tended := Tend(w);
    assert id in tended.txns && tended.txns[id] == w.txns[id] by { TendInv(w); }
  }

  /** Being destroyed changes no answer of the getters. */
  lemma {:induction false} DestroyShows(w: World, id: nat)
    requires Inv(w) && id in w.txns
    ensures View(Step(w, DestroyAll).0.txns[id]) == View(w.txns[id])
    ensures View(Step(w, Commit(id)).0.txns[id]) == View(w.txns[id]) == View(Step(w, Abort(id)).0.txns[id])
  {
    TendKeepsView(w, id);
  }

  // Setting the timeout of a transaction that tending has closed, with a pool of any capacity.

  function Creates(n: nat, initial: Native): seq<Event> {
    seq(n, i requires 0 <= i < n => Create(i, 0, 0, initial))
  }

  /** After `n` constructions: that many open transactions, all pooled, of no capacity. */
  ghost predicate AllOpen(w: World, capacity: nat, n: nat, initial: Native) {
    && Inv(w) && w.capacity == capacity && |w.pool| == n && w.total == 0
    && (forall id: nat :: id in w.txns <==> id < n)
    && forall id | id in w.txns :: id in w.pool && w.txns[id] == Txn(0, 0, initial, None)
  }

  lemma {:induction false} RunSnoc(w: World, es: seq<Event>, e: Event)
    requires Inv(w)
    ensures Inv(Run(w, es)) && Run(w, es + [e]) == Step(Run(w, es), e).0
    ensures Outcomes(w, es + [e]) == Outcomes(w, es) + [Step(Run(w, es), e).1]
    ensures FinalRun(w, es + [e]) <==> FinalRun(w, es) && Final(Run(w, es), e)
    decreases |es|
  {
    Accounting(w, es);
    if es == [] {
      assert es + [e] == [e];
    } else {
      assert (es + [e])[1..] == es[1..] + [e];
      StepInv(w, es[0]);
      RunSnoc(Step(w, es[0]).0, es[1..], e);
    }
  }

  lemma {:induction false} AfterCreates(capacity: nat, n: nat, initial: Native)
    ensures var es := Creates(n, initial);
      FinalRun(Init(capacity), es) && AllOpen(Run(Init(capacity), es), capacity, n, initial)
  {
    if n == 0 {
      assert Creates(n, initial) == [];
    } else {
      AfterCreates(capacity, n - 1, initial);
      assert Creates(n, initial) == Creates(n - 1, initial) + [Create(n - 1, 0, 0, initial)];
      RunSnoc(Init(capacity), Creates(n - 1, initial), Create(n - 1, 0, 0, initial));
      CreatedNext(Run(Init(capacity), Creates(n - 1, initial)), capacity, n - 1, initial);
    }
  }

  lemma {:induction false} CreatedNext(w: World, capacity: nat, n: nat, initial: Native)
    requires AllOpen(w, capacity, n, initial)
    ensures AllOpen(Step(w, Create(n, 0, 0, initial)).0, capacity, n + 1, initial)
  {
    StepInv(w, Create(n, 0, 0, initial));
  }

  /** One construction more than the capacity, a completion, and a commit that tends the pool. */
  function TellingRun(capacity: nat, initial: Native, done: Native): seq<Event> {
    Creates(capacity + 1, initial) + [NativeMoves(0, done)] + [Commit(0)]
  }

  /** However large the pool, such a run then tells: `setTimeout` throws although without tending
      it would not. */
  lemma {:induction false} SetTimeoutTells(capacity: nat, initial: Native, done: Native, timeout: int)
    requires initial.state == Open && done.state == Committed
    ensures var es := TellingRun(capacity, initial, done) + [SetTimeout(0, timeout)];
      && FinalRun(Init(capacity), es) && !CarefulRun(Init(capacity), {}, es)
      && |Outcomes(Init(capacity), es)| == |es|
      && Outcomes(Init(capacity), es)[capacity + 3] == CompleteError
      && RefOutcomes(Ref(map[], {}), es, Outcomes(Init(capacity), es)) != Outcomes(Init(capacity), es)
  {
    var w0, e, es := Init(capacity), SetTimeout(0, timeout), TellingRun(capacity, initial, done);
    AfterTelling(capacity, initial, done);
    RunSnoc(w0, es, e);
    OutcomesLength(w0, es);
    assert forall i | 0 <= i < |es| :: !es[i].DestroyAll?;
    CarefulSnoc(w0, {}, es, e);
    RunSim(w0, Ref(map[], {}), {}, es + [e]);
  }

  lemma {:induction false} AfterTelling(capacity: nat, initial: Native, done: Native)
    requires initial.state == Open && done.state == Committed
    ensures var es := TellingRun(capacity, initial, done); var w := Run(Init(capacity), es);
      && FinalRun(Init(capacity), es) && 0 in w.txns && w.txns[0].closed.Some?
  {
    var w0, es := Init(capacity), Creates(capacity + 1, initial);
    AfterCreates(capacity, capacity + 1, initial);
    TendsFirst(Run(w0, es), capacity, initial, done);
    RunTwo(w0, es, NativeMoves(0, done), Commit(0));
  }

  lemma {:induction false} RunTwo(w: World, es: seq<Event>, e: Event, e': Event)
    requires Inv(w)
    ensures Inv(Run(w, es)) && Inv(Step(Run(w, es), e).0)
    ensures Run(w, es + [e] + [e']) == Step(Step(Run(w, es), e).0, e').0
    ensures FinalRun(w, es + [e] + [e'])
       <==> FinalRun(w, es) && Final(Run(w, es), e) && Final(Step(Run(w, es), e).0, e')
  {
    RunSnoc(w, es, e);
    RunSnoc(w, es + [e], e');
  }

  /** When the first transaction has completed, a commit tends the pool. */
  lemma {:induction false} TendsFirst(w: World, capacity: nat, initial: Native, done: Native)
    requires AllOpen(w, capacity, capacity + 1, initial) && initial.state == Open && done.state == Committed
    ensures Final(w, NativeMoves(0, done))
    ensures var w' := Step(w, NativeMoves(0, done)).0;
      Inv(w') && 0 in Step(w', Commit(0)).0.txns && Step(w', Commit(0)).0.txns[0].closed.Some?
  {
    StepInv(w, NativeMoves(0, done));
  }

  lemma {:induction false} CarefulSnoc(w: World, gone: set<nat>, es: seq<Event>, e: Event)
    requires Inv(w) && forall i | 0 <= i < |es| :: !es[i].DestroyAll?
    ensures Inv(Run(w, es)) && (CarefulRun(w, gone, es + [e]) ==> Careful(Run(w, es), gone, e))
    decreases |es|
  {
    Accounting(w, es);
    if es == [] {
      assert es + [e] == [e];
    } else {
      assert (es + [e])[1..] == es[1..] + [e];
      StepInv(w, es[0]);
      CarefulSnoc(Step(w, es[0]).0, gone, es[1..], e);
    }
  }

  // Who is destroyed with the others.

  /** In the pool, or closed. */
  predicate Held(w: World, id: nat) { id in w.txns && (id in w.pool || w.txns[id].closed.Some?) }

  lemma {:induction false} TendHeld(w: World, id: nat)
    requires Inv(w) && Held(w, id)
    ensures Held(Tend(w), id)
  {
    WithoutFacts(w.pool, PooledCompleted(w));
  }

  lemma {:induction false} StepHeld(w: World, e: Event, id: nat)
    requires Inv(w) && Held(w, id)
    ensures Held(Step(w, e).0, id)
  {
    TendHeld(w, id);
  }

  lemma {:induction false} RunHeld(w: World, es: seq<Event>, id: nat)
    requires Inv(w) && Held(w, id)
    ensures Held(Run(w, es), id)
    decreases |es|
  {
    if es != [] {
      StepInv(w, es[0]);
      StepHeld(w, es[0], id);
      RunHeld(Step(w, es[0]).0, es[1..], id);
    }
  }

  lemma {:induction false} DestroyAllCloses(w: World, id: nat)
    requires Inv(w) && Held(w, id)
    ensures var w' := Step(w, DestroyAll).0; id in w'.txns && w'.txns[id].closed.Some?
  {
  }

  lemma {:induction false} ConstructInv(w: World, id: nat, t: Txn)
    requires Inv(w) && id !in w.txns && t.closed.None? && IsUint32(t.readCap) && IsUint32(t.writeCap)
    ensures var (w', o) := Construct(w, id, t); Inv(w') && (o.Created? ==> id in w'.txns && w'.txns[id] == t)
    ensures var (w', o) := Construct(w, id, t); o.Created? ==> (id in w'.pool <==> o.pooled)
  {
    TendInv(w);
    if w.total <= READ_WRITE_LIMIT {
      AddInv(w, id, t, true);
    } else if Tend(w).total <= READ_WRITE_LIMIT {
      AddInv(Tend(w), id, t, false);
    }
  }

  /** Whatever happens in between, the next destroyAll leaves a new transaction destroyed if and only
      if it was pooled; and it was left out exactly when the total was above the limit and tending
      has brought it back. */
  lemma {:induction false} DestroyedIffPooled(w: World, id: nat, t: Txn, es: seq<Event>)
    requires Inv(w) && id !in w.txns && t.closed.None? && IsUint32(t.readCap) && IsUint32(t.writeCap)
    ensures var (w', o) := Construct(w, id, t);
      && (o == Created(false) <==> w.total > READ_WRITE_LIMIT && Tend(w).total <= READ_WRITE_LIMIT)
      && Inv(w')
      && (o.Created? ==> var f := Run(w', es + [DestroyAll]); id in f.txns && (f.txns[id].closed.Some? <==> o.pooled))
  {
    var (w', o) := Construct(w, id, t);
    ConstructInv(w, id, t);
    if o == Created(true) {
      RunHeld(w', es, id);
      RunSnoc(w', es, DestroyAll);
      DestroyAllCloses(Run(w', es), id);
    } else if o == Created(false) {
      NeverClosed(w', es + [DestroyAll], id);
    }
  }

  /** One transaction more than the pool's capacity, the last with more than the limit, which then
      completes. */
  function FillingRun(capacity: nat, initial: Native, done: Native): seq<Event> {
    Creates(capacity, initial) + [Create(capacity, READ_WRITE_LIMIT + 1, 0, initial)] + [NativeMoves(capacity, done)]
  }

  /** However large the pool, a transaction can be left out of it. */
  lemma {:induction false} LeftOutReached(capacity: nat, initial: Native, done: Native)
    requires !Finished(initial.state) && Finished(done.state)
    ensures var es := FillingRun(capacity, initial, done);
      && FinalRun(Init(capacity), es) && Inv(Run(Init(capacity), es))
      && Step(Run(Init(capacity), es), Create(capacity + 1, 0, 0, initial)).1 == Created(false)
  {
    var w0, es := Init(capacity), Creates(capacity, initial);
    var w := Run(w0, es);
    AfterCreates(capacity, capacity, initial);
    FillingSteps(w, capacity, initial, done);
    RunTwo(w0, es, Create(capacity, READ_WRITE_LIMIT + 1, 0, initial), NativeMoves(capacity, done));
  }

  lemma {:induction false} FillingSteps(w: World, capacity: nat, initial: Native, done: Native)
    requires AllOpen(w, capacity, capacity, initial) && !Finished(initial.state) && Finished(done.state)
    ensures var c := Create(capacity, READ_WRITE_LIMIT + 1, 0, initial); var m := NativeMoves(capacity, done);
      && Inv(Step(w, c).0) && Final(w, c) && Final(Step(w, c).0, m) && Inv(Step(Step(w, c).0, m).0)
      && Step(Step(Step(w, c).0, m).0, Create(capacity + 1, 0, 0, initial)).1 == Created(false)
  {
    var c, m := Create(capacity, READ_WRITE_LIMIT + 1, 0, initial), NativeMoves(capacity, done);
    var w1 := Step(w, c).0;
    var w2 := Step(w1, m).0;
    StepInv(w, c);
    StepInv(w1, m);
    FilledTends(w2, capacity);
  }

  lemma {:induction false} FilledTends(w: World, n: nat)
    requires Inv(w) && n in w.txns && n in w.pool && Completed(w.txns[n]) && |w.pool| == n + 1 && w.capacity == n
    requires forall id | id in w.txns && id != n :: Cap(w.txns[id]) == 0
    ensures Tend(w).total == 0
  {
    var pool := Without(w.pool, PooledCompleted(w));
    WithoutFacts(w.pool, PooledCompleted(w));
    SumZero(w.txns, pool);
  }

  lemma {:induction false} SumZero(txns: map<nat, Txn>, ids: seq<nat>)
    requires forall id | id in ids :: id in txns && Cap(txns[id]) == 0
    ensures Sum(txns, ids) == 0
  {
    if ids != [] { SumZero(txns, ids[..|ids| - 1]); }
  }
}
