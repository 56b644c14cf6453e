/** The event loop of lib/event_loop.js and the connection life cycle of lib/client.js, for any
    number of clients, in any interleaving of calls, completions and retry timers. */
module Lifecycle {
  import T = TxnSpec

  datatype NativeCall = Register | Ref | Unref | Release(clusters: nat)

  // The event loop.

  /** `timers` counts retry timers that are running; `trace` is the native calls made. */
  datatype Loop = Loop(released: bool, initialized: bool, timers: nat, trace: seq<NativeCall>)

  datatype Outcome = Ok | Thrown

  function ReleaseLoop(l: Loop, clusters: nat): Loop {
    if l.released then l
    else if clusters > 0 then l.(timers := l.timers + 1)
    else l.(released := true, trace := l.trace + [Release(clusters)])
  }

  function RegisterLoop(l: Loop): (Loop, Outcome) {
    if l.released then (l, Thrown)
    else if l.initialized then (l.(trace := l.trace + [Ref]), Ok)
    else (l.(initialized := true, trace := l.trace + [Register]), Ok)
  }

  function UnreferenceLoop(l: Loop): (Loop, Outcome) {
    if !l.initialized || l.released then (l, Thrown) else (l.(trace := l.trace + [Unref]), Ok)
  }

  // The clients.

  /** `pending` holds a client once for each of its connects still under way; `doubled` counts
      the connections that succeeded on a client that was already connected. */
  datatype Sys = Sys(loop: Loop, connected: set<nat>, pending: multiset<nat>, count: int,
                     clusters: nat, world: T.World, doubled: nat)

  datatype Event =
    | Connect(c: nat)
    | Connected(c: nat)
    | ConnectFailed(c: nat)
    | CloseClient(c: nat, release: bool, destroy: bool)
    | ReleaseNow
    | RetryFires
    | ClustersChange(n: nat)
    | Transactions(e: T.Event)

  const START := Sys(Loop(false, false, 0, []), {}, multiset{}, 0, 0, T.Init(128), 0)

  predicate Enabled(s: Sys, e: Event) {
    match e
    case Connected(c) => c in s.pending
    case ConnectFailed(c) => c in s.pending
    case RetryFires => s.loop.timers > 0
    case _ => true
  }

  function CloseStep(s: Sys, c: nat, release: bool, destroy: bool): (Sys, Outcome)
    requires T.Known(s.world)
  {
    var s1 := if c in s.connected then s.(connected := s.connected - {c}, count := s.count - 1) else s;
    if s1.count != 0 then (s1, Ok) else
      var s2 := if destroy then s1.(world := T.RemoveAll(s1.world)) else s1;
      if release then (s2.(loop := ReleaseLoop(s2.loop, s2.clusters)), Ok)
      else (s2.(loop := UnreferenceLoop(s2.loop).0), UnreferenceLoop(s2.loop).1)
  }

  function Step(s: Sys, e: Event): (Sys, Outcome)
    requires T.Known(s.world) && Enabled(s, e)
  {
    match e
    case Connect(c) =>
      var (l, o) := RegisterLoop(s.loop);
      if o == Ok then (s.(loop := l, pending := s.pending + multiset{c}), Ok) else (s, Thrown)
    case Connected(c) =>
      (s.(connected := s.connected + {c}, pending := s.pending - multiset{c}, count := s.count + 1,
          doubled := if c in s.connected then s.doubled + 1 else s.doubled), Ok)
    case ConnectFailed(c) => (s.(pending := s.pending - multiset{c}), Ok)
    case CloseClient(c, release, destroy) => CloseStep(s, c, release, destroy)
    case ReleaseNow => (s.(loop := ReleaseLoop(s.loop, s.clusters)), Ok)
    case RetryFires =>
      (s.(loop := ReleaseLoop(s.loop.(timers := s.loop.timers - 1), s.clusters)), Ok)
    case ClustersChange(n) => (s.(clusters := n), Ok)
    case Transactions(te) => (s.(world := T.Step(s.world, te).0), Ok)
  }

  // What every trace of native calls looks like.

  /** A register only as the first call; a ref or unref only after a register; a release only as
      the last call and only at cluster count 0. */
  predicate InLanguage(t: seq<NativeCall>) {
    forall i | 0 <= i < |t| ::
      match t[i]
      case Register => i == 0
      case Ref => i > 0 && t[0] == Register
      case Unref => i > 0 && t[0] == Register
      case Release(n) => i == |t| - 1 && n == 0
  }

  predicate LoopInv(l: Loop) {
    && InLanguage(l.trace)
    && (l.initialized <==> l.trace != [] && l.trace[0] == Register)
    && (l.released <==> l.trace != [] && l.trace[|l.trace| - 1].Release?)
  }

  ghost predicate Inv(s: Sys) {
    LoopInv(s.loop) && T.Inv(s.world) && s.count == |s.connected| + s.doubled
  }

  /** Appending one call to a trace that does not end in a release. */
  lemma {:induction false} Append(t: seq<NativeCall>, c: NativeCall)
    requires InLanguage(t) && (t != [] ==> !t[|t| - 1].Release?)
    requires match c
             case Register => t == []
             case Release(n) => n == 0
             case _ => t != [] && t[0] == Register
    ensures InLanguage(t + [c])
  {
    var t' := t + [c];
    forall i | 0 <= i < |t'|
      ensures match t'[i]
              case Register => i == 0
              case Ref => i > 0 && t'[0] == Register
              case Unref => i > 0 && t'[0] == Register
              case Release(n) => i == |t'| - 1 && n == 0
    {
      if i < |t| { assert t'[i] == t[i]; }
    }
  }

  lemma {:induction false} LoopSteps(l: Loop, clusters: nat)
    requires LoopInv(l)
    ensures LoopInv(ReleaseLoop(l, clusters)) && LoopInv(RegisterLoop(l).0) && LoopInv(UnreferenceLoop(l).0)
  {
    if !l.released {
      if clusters == 0 { Append(l.trace, Release(0)); }
      if l.initialized {
        Append(l.trace, Ref);
        Append(l.trace, Unref);
      } else {
        Append(l.trace, Register);
      }
    }
  }

  lemma {:induction false} StepInv(s: Sys, e: Event)
    requires Inv(s) && Enabled(s, e)
    ensures Inv(Step(s, e).0)
    ensures s.loop.trace <= Step(s, e).0.loop.trace && s.doubled <= Step(s, e).0.doubled
  {
    match e
    case CloseClient(c, release, destroy) =>
      CloseInv(s, c, release, destroy);
    case Connected(c) =>
      if c in s.connected { assert s.connected + {c} == s.connected; }
    case RetryFires =>
      LoopSteps(s.loop.(timers := s.loop.timers - 1), s.clusters);
    case Transactions(te) =>
      T.StepInv(s.world, te);
    case _ =>
      LoopSteps(s.loop, s.clusters);
  }

  lemma {:induction false} CloseInv(s: Sys, c: nat, release: bool, destroy: bool)
    requires Inv(s)
    ensures Inv(CloseStep(s, c, release, destroy).0)
    ensures s.loop.trace <= CloseStep(s, c, release, destroy).0.loop.trace
  {
    LoopSteps(s.loop, s.clusters);
    T.RemoveAllInv(s.world);
    if c in s.connected { assert |s.connected - {c}| == |s.connected| - 1; }
  }

  ghost predicate IsRun(s: Sys, es: seq<Event>)
    requires Inv(s)
    decreases |es|
  {
    es != [] ==> Enabled(s, es[0]) && (StepInv(s, es[0]); IsRun(Step(s, es[0]).0, es[1..]))
  }

  ghost function Final(s: Sys, es: seq<Event>): (f: Sys)
    requires Inv(s) && IsRun(s, es)
    ensures Inv(f)
    decreases |es|
  {
    if es == [] then s else StepInv(s, es[0]); Final(Step(s, es[0]).0, es[1..])
  }

  /** Event-loop trace language, and connection count, in every run. */
  lemma {:induction false} EveryRun(s: Sys, es: seq<Event>)
    requires Inv(s) && IsRun(s, es)
    ensures var f := Final(s, es);
      && Inv(f) && InLanguage(f.loop.trace) && s.loop.trace <= f.loop.trace
      && f.count == |f.connected| + f.doubled && f.count >= 0 && f.doubled >= s.doubled
    decreases |es|
  {
    if es != [] {
      StepInv(s, es[0]);
      EveryRun(Step(s, es[0]).0, es[1..]);
    }
  }

  /** `connect` is never called on a client that is connected or connecting. */
  predicate Single(s: Sys, e: Event) {
    e.Connect? ==> e.c !in s.connected && e.c !in s.pending
  }

  ghost predicate SingleRun(s: Sys, es: seq<Event>)
    requires Inv(s) && IsRun(s, es)
    decreases |es|
  {
    es != [] ==> Single(s, es[0]) && (StepInv(s, es[0]); SingleRun(Step(s, es[0]).0, es[1..]))
  }

  /** Connects under way are for different clients, none of them connected. */
  ghost predicate PendingInv(s: Sys) {
    forall c :: s.pending[c] <= 1 && (c in s.pending ==> c !in s.connected)
  }

  /** Under that discipline the counter is the number of connected clients. */
  lemma {:induction false} ConnectionCount(s: Sys, es: seq<Event>)
    requires Inv(s) && IsRun(s, es) && PendingInv(s) && s.doubled == 0 && SingleRun(s, es)
    ensures Final(s, es).count == |Final(s, es).connected|
    decreases |es|
  {
    if es != [] {
      StepInv(s, es[0]);
      ConnectionCount(Step(s, es[0]).0, es[1..]);
    }
  }

  /** Without it the counter is too high for ever: it is right exactly as long as no connection
      has succeeded on a client that was already connected. */
  lemma {:induction false} CountExact(s: Sys, es: seq<Event>)
    requires Inv(s) && IsRun(s, es)
    ensures Final(s, es).count == |Final(s, es).connected| <==> Final(s, es).doubled == 0
    ensures s.doubled > 0 ==> Final(s, es).count > |Final(s, es).connected|
  {
    EveryRun(s, es);
  }

  /** A program that connects one client twice. */
  lemma {:induction false} DoubleConnect(s: Sys)
    requires Inv(s) && s.connected == {} && s.doubled == 0 && !s.loop.released && s.pending == multiset{}
    ensures var s1 := Step(s, Connect(0)).0; var s2 := Step(s1, Connect(0)).0;
      && s2.pending == multiset{0, 0} && Step(s2, Connected(0)).0.pending == multiset{0}
      && Step(Step(s2, Connected(0)).0, Connected(0)).0.count == 2
      && Step(Step(s2, Connected(0)).0, Connected(0)).0.connected == {0}
  {
    assert multiset{} + multiset{0} + multiset{0} == multiset{0, 0};
    assert multiset{0, 0} - multiset{0} == multiset{0};
    assert {} + {0} + {0} == {0};
  }

  /** A close that leaves the counter at zero with destroyTransactions set leaves the pool
      empty and its total zero; the event loop is then released or unreferenced. */
  lemma {:induction false} LastClose(s: Sys, c: nat, release: bool)
    requires Inv(s)
    ensures var s' := Step(s, CloseClient(c, release, true)).0;
      s'.count == 0 ==> s'.world.pool == [] && s'.world.total == 0
    ensures var s' := Step(s, CloseClient(c, release, true)).0;
      s'.count != 0 ==> s'.world == s.world && s'.loop == s.loop
  {
    T.RemoveAllInv(s.world);
  }

  /** What a close does to counter, pool and event loop, and when it throws. */
  lemma {:induction false} CloseExact(s: Sys, c: nat, release: bool, destroy: bool)
    requires Inv(s)
    ensures var (s', o) := Step(s, CloseClient(c, release, destroy));
      && s'.connected == s.connected - {c} && s'.count == s.count - (if c in s.connected then 1 else 0)
      && s'.pending == s.pending && s'.clusters == s.clusters && s'.doubled == s.doubled
      && (s'.world == if s'.count == 0 && destroy then T.RemoveAll(s.world) else s.world)
      && (if s'.count != 0 then s'.loop == s.loop && o == Ok
          else if release then o == Ok && s'.loop == Step(s, ReleaseNow).0.loop
          else if !s.loop.initialized || s.loop.released then o == Thrown && s'.loop == s.loop
          else o == Ok && s'.loop == s.loop.(trace := s.loop.trace + [Unref]))
  {
    if c !in s.connected { assert s.connected - {c} == s.connected; }
  }

  /** Connecting throws exactly when the event loop has been released; otherwise the loop is registered
      once and referenced from then on, and the connect is under way. */
  lemma {:induction false} ConnectExact(s: Sys, c: nat)
    requires Inv(s)
    ensures var (s', o) := Step(s, Connect(c));
      && (o == Thrown <==> s.loop.released)
      && (o == Thrown ==> s' == s)
      && (o == Ok ==>
            && s'.pending == s.pending + multiset{c} && s'.loop.initialized
            && s'.loop.trace == s.loop.trace + [if s.loop.initialized then Ref else Register]
            && s'.connected == s.connected && s'.count == s.count && s'.world == s.world)
  {
  }

  /** At the start nothing is connected, registered or pooled, and the pool is for 128 transactions. */
  lemma {:induction false} StartExact()
    ensures START.loop.trace == [] && !START.loop.initialized && !START.loop.released && START.loop.timers == 0
    ensures START.connected == {} && START.pending == multiset{} && START.count == 0 && START.doubled == 0
    ensures START.clusters == 0 && START.world.txns == map[] && START.world.pool == [] && START.world.total == 0
    ensures START.world.capacity == 128
  {
  }

  /** Transactions do not touch the rest of the system, nor do clusters. */
  lemma {:induction false} OthersExact(s: Sys, te: T.Event, n: nat)
    requires Inv(s)
    ensures Step(s, Transactions(te)).0 == s.(world := T.Step(s.world, te).0)
    ensures Step(s, ClustersChange(n)).0 == s.(clusters := n)
  {
  }

  /** A connect that succeeds is counted and one that fails is not. */
  lemma {:induction false} ConnectedExact(s: Sys, c: nat)
    requires Inv(s) && c in s.pending
    ensures var s' := Step(s, Connected(c)).0;
      s'.count == s.count + 1 && s'.connected == s.connected + {c} && s'.pending == s.pending - multiset{c}
      && s'.loop == s.loop && s'.world == s.world
    ensures var s' := Step(s, ConnectFailed(c)).0;
      s'.count == s.count && s'.connected == s.connected && s'.pending == s.pending - multiset{c}
      && s'.loop == s.loop && s'.world == s.world
  {
  }

  // A release comes.

  /** Released, or to be tried again. */
  predicate Coming(l: Loop) { l.released || l.timers > 0 }

  /** Once a release has been asked for, it stays done or coming in every run, whatever the clusters;
      and as soon as there are none, the next retry makes it. */
  lemma {:induction false} ReleaseComes(s: Sys, es: seq<Event>)
    requires Inv(s) && IsRun(Asked(s), es)
    ensures var f := Final(Asked(s), es);
      && Coming(f.loop) && (!f.loop.released ==> Enabled(Step(f, ClustersChange(0)).0, RetryFires))
      && (!f.loop.released ==>
            var g := Step(Step(f, ClustersChange(0)).0, RetryFires).0;
            g.loop.released && g.loop.trace == f.loop.trace + [Release(0)])
  {
    EveryRun(Asked(s), es);
    StaysComing(Asked(s), es);
  }

  /** The state after a release has been asked for. */
  ghost function Asked(s: Sys): (r: Sys)
    requires Inv(s)
    ensures Inv(r)
  {
    StepInv(s, ReleaseNow);
    Step(s, ReleaseNow).0
  }

  lemma {:induction false} StaysComing(s: Sys, es: seq<Event>)
    requires Inv(s) && IsRun(s, es) && Coming(s.loop)
    ensures Coming(Final(s, es).loop)
    decreases |es|
  {
    if es != [] {
      StepInv(s, es[0]);
      ComingNow(s, es[0]);
      StaysComing(Step(s, es[0]).0, es[1..]);
    }
  }

  lemma {:induction false} ComingNow(s: Sys, e: Event)
    requires Inv(s) && Enabled(s, e) && Coming(s.loop)
    ensures Coming(Step(s, e).0.loop)
  {
  }

  /** Without clusters a release is made at once. */
  lemma {:induction false} ReleaseAtOnce(s: Sys)
    requires Inv(s) && s.clusters == 0 && !s.loop.released
    ensures Asked(s).loop.released && Asked(s).loop.trace == s.loop.trace + [Release(0)]
  {
  }

  // Every trace in the language is produced by some run.

  function Cause(c: NativeCall): Event {
    match c
    case Register => Connect(0)
    case Ref => Connect(0)
    case Unref => CloseClient(1, false, false)
    case Release(_) => ReleaseNow
  }

  function Program(t: seq<NativeCall>): seq<Event> { seq(|t|, i requires 0 <= i < |t| => Cause(t[i])) }

  /** From any state without connections and clusters, the program for `t` appends `t`. */
  lemma {:induction false} ProgramRuns(s: Sys, t: seq<NativeCall>)
    requires Inv(s) && s.connected == {} && s.doubled == 0 && s.clusters == 0
    requires InLanguage(s.loop.trace + t)
    ensures IsRun(s, Program(t)) && Final(s, Program(t)).loop.trace == s.loop.trace + t
    decreases |t|
  {
    var es, tr := Program(t), s.loop.trace;
    if t == [] {
      assert tr + t == tr;
    } else {
      var s' := Step(s, es[0]).0;
      StepInv(s, es[0]);
      NextCall(s, t);
      assert tr + t == s'.loop.trace + t[1..];
      ProgramRuns(s', t[1..]);
      assert es[1..] == Program(t[1..]);
    }
  }

  lemma {:induction false} NextCall(s: Sys, t: seq<NativeCall>)
    requires Inv(s) && s.connected == {} && s.doubled == 0 && s.clusters == 0
    requires t != [] && InLanguage(s.loop.trace + t)
    ensures var s' := Step(s, Cause(t[0])).0;
      s'.loop.trace == s.loop.trace + [t[0]] && s'.connected == {} && s'.doubled == 0 && s'.clusters == 0
  {
    var all, n := s.loop.trace + t, |s.loop.trace|;
    assert all[n] == t[0];
    assert n > 0 ==> all[0] == s.loop.trace[0] && all[n - 1] == s.loop.trace[n - 1];
  }

  /** The language is exact: a trace is possible if and only if it is in the language. */
  lemma {:induction false} LanguageExact(t: seq<NativeCall>)
    ensures Inv(START)
    ensures InLanguage(t) <==> exists es :: IsRun(START, es) && Final(START, es).loop.trace == t
  {
    if InLanguage(t) {
      assert START.loop.trace + t == t;
      ProgramRuns(START, t);
    }
    forall es | IsRun(START, es) && Final(START, es).loop.trace == t ensures InLanguage(t) {
      EveryRun(START, es);
    }
  }
}
