/** The module variables of lib/event_loop.js and lib/client.js as objects whose methods are
    proved against the functions of Lifecycle. */
module LifecycleClasses {
  import opened Prelude
  import opened Lifecycle
  import P = TxnPool
  import G = TxnProgram
  import T = TxnSpec

  /** The world, if that is what the pool and the transactions show. */
  ghost function Seen(pool: P.TransactionPool, all: map<nat, P.Transaction>, w: T.World): Option<T.World>
    reads pool, pool.transactions, P.NativesOf(pool.transactions), all.Values, P.NativesIn(all)
  {
    if G.Shows(pool, all, w) then Some(w) else None
  }

  /** The event loop after the last client: released or unreferenced. */
  function Left(l: Loop, release: bool, clusters: nat): (Loop, Outcome) {
    if release then (ReleaseLoop(l, clusters), Ok) else UnreferenceLoop(l)
  }

  class EventLoop {
    var released: bool
    var initialized: bool
    var timers: nat
    var trace: seq<NativeCall>

    ghost function View(): Loop
      reads this
    {
      Loop(released, initialized, timers, trace)
    }

    constructor ()
      ensures View() == START.loop
    {
      released, initialized, timers, trace := false, false, 0, [];
    }

    method ReleaseEventLoop(clusterCount: nat)
      modifies this
      ensures View() == ReleaseLoop(old(View()), clusterCount)
    {
      if released { return; }
      if clusterCount > 0 {
        timers := timers + 1;
      } else {
        trace := trace + [Release(clusterCount)];
        released := true;
      }
    }

    method RegisterASEventLoop() returns (o: Outcome)
      modifies this
      ensures (View(), o) == RegisterLoop(old(View()))
    {
      if released { return Thrown; }
      if initialized {
        o := ReferenceEventLoop();
      } else {
        trace := trace + [Register];
        initialized := true;
        o := Ok;
      }
    }

    method ReferenceEventLoop() returns (o: Outcome)
      modifies this
      ensures initialized && !released ==> o == Ok && View() == old(View()).(trace := old(trace) + [Ref])
      ensures !initialized || released ==> o == Thrown && View() == old(View())
    {
      if !initialized || released { return Thrown; }
      trace := trace + [Ref];
      o := Ok;
    }

    method UnreferenceEventLoop() returns (o: Outcome)
      modifies this
      ensures (View(), o) == UnreferenceLoop(old(View()))
    {
      if !initialized || released { return Thrown; }
      trace := trace + [Unref];
      o := Ok;
    }
  }

  class Client {
    var connected: bool

    constructor ()
      ensures !connected
    {
      connected := false;
    }
  }

  /** The counter of connected clients, shared by all clients. */
  class ClientModule {
    var connectedClients: int
    const loop: EventLoop

    constructor (loop: EventLoop)
      ensures connectedClients == 0 && this.loop == loop
    {
      connectedClients := 0;
      this.loop := loop;
    }

    /** The counter, one client and the event loop are as the system says. */
    ghost predicate Shows(c: Client, id: nat, s: Sys)
      reads this, c, loop
    {
      connectedClients == s.count && (c.connected <==> id in s.connected) && loop.View() == s.loop
    }

    /** The handler that runs when a connect has succeeded. */
    method OnConnected(c: Client, ghost id: nat, ghost s: Sys)
      requires Shows(c, id, s) && T.Known(s.world) && id in s.pending
      modifies this, c
      ensures Shows(c, id, Step(s, Connected(id)).0)
    {
      c.connected := true;
      connectedClients := connectedClients + 1;
    }

    /** `Client#close`: only a connected client is counted down; when the counter is then zero
        the pool is emptied if wanted, and the event loop released or unreferenced. */
    method Close(c: Client, releaseEventLoop: bool, destroyTransactions: bool, clusterCount: nat,
                 pool: P.TransactionPool, ghost id: nat, ghost all: map<nat, P.Transaction>, ghost s: Sys)
      returns (o: Outcome, ghost s': Sys)
      requires Shows(c, id, s) && s.clusters == clusterCount && Seen(pool, all, s.world) == Some(s.world)
      modifies this, c, loop, pool, pool.transactions, P.NativesOf(pool.transactions)`released
      ensures Shows(c, id, s') && Seen(pool, all, s'.world) == Some(s'.world)
      ensures (s', o) == Step(s, CloseClient(id, releaseEventLoop, destroyTransactions))
    {
      CountDown(c, pool, all, s.world);
      s' := Counted(s, id);
      o := Ok;
      CloseStepIs(s, id, releaseEventLoop, destroyTransactions);
      if connectedClients == 0 {
        o, s' := LeaveLast(c, releaseEventLoop, destroyTransactions, clusterCount, pool, id, all, s');
      }
    }

    ghost function Counted(s: Sys, id: nat): Sys {
      s.(connected := s.connected - {id}, count := if id in s.connected then s.count - 1 else s.count)
    }

    ghost function Last(s: Sys, release: bool, destroy: bool): (Sys, Outcome)
      requires T.Known(s.world)
    {
      var (l, o) := Left(s.loop, release, s.clusters);
      (s.(world := if destroy then T.RemoveAll(s.world) else s.world, loop := l), o)
    }

    /** What closing a client comes to: counting down, and then leaving if it was the last. */
    lemma {:induction false} CloseStepIs(s: Sys, id: nat, release: bool, destroy: bool)
      requires T.Known(s.world)
      ensures var s1 := Counted(s, id);
        Step(s, CloseClient(id, release, destroy)) == if s1.count != 0 then (s1, Ok) else Last(s1, release, destroy)
    {
      if id !in s.connected { assert s.connected - {id} == s.connected; }
    }

    method CountDown(c: Client, ghost pool: P.TransactionPool, ghost all: map<nat, P.Transaction>, ghost w: T.World)
      requires Seen(pool, all, w) == Some(w)
      modifies this, c
      ensures Seen(pool, all, w) == Some(w) && !c.connected
      ensures connectedClients == if old(c.connected) then old(connectedClients) - 1 else old(connectedClients)
    {
      if c.connected {
        c.connected := false;
        connectedClients := connectedClients - 1;
      }
    }

    method LeaveLast(c: Client, releaseEventLoop: bool, destroyTransactions: bool, clusterCount: nat,
                     pool: P.TransactionPool, ghost id: nat, ghost all: map<nat, P.Transaction>, ghost s: Sys)
      returns (o: Outcome, ghost s': Sys)
      requires Shows(c, id, s) && s.clusters == clusterCount && Seen(pool, all, s.world) == Some(s.world)
      modifies loop, pool, pool.transactions, P.NativesOf(pool.transactions)`released
      ensures Shows(c, id, s') && Seen(pool, all, s'.world) == Some(s'.world)
      ensures (s', o) == Last(s, releaseEventLoop, destroyTransactions)
    {
      ghost var w := EmptyPool(destroyTransactions, pool, all, s.world);
      o := LeaveLoop(releaseEventLoop, clusterCount, pool, all, w);
      s' := s.(world := w, loop := loop.View());
    }

    method EmptyPool(destroyTransactions: bool, pool: P.TransactionPool, ghost all: map<nat, P.Transaction>,
                     ghost w: T.World) returns (ghost w': T.World)
      requires Seen(pool, all, w) == Some(w)
      modifies pool, pool.transactions, P.NativesOf(pool.transactions)`released
      ensures Seen(pool, all, w') == Some(w') && w' == if destroyTransactions then T.RemoveAll(w) else w
    {
      w' := w;
      if destroyTransactions {
        w' := G.DestroyAll(pool, all, w);
      }
    }

    method LeaveLoop(releaseEventLoop: bool, clusterCount: nat, ghost pool: P.TransactionPool,
                     ghost all: map<nat, P.Transaction>, ghost w: T.World) returns (o: Outcome)
      requires Seen(pool, all, w) == Some(w)
      modifies loop
      ensures Seen(pool, all, w) == Some(w)
      ensures (loop.View(), o) == Left(old(loop.View()), releaseEventLoop, clusterCount)
    {
      o := Ok;
      if releaseEventLoop {
        loop.ReleaseEventLoop(clusterCount);
      } else {
        o := loop.UnreferenceEventLoop();
      }
    }
  }
}
