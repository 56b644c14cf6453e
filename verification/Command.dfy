/** Callback deferral of lib/commands/command.js: a callback that the native side makes while
    `execute` is still on the stack is put off to the tick queue. */
module Command {

  /** `ticks` is the tick queue and `delivered` the user callbacks run so far; native callbacks
      are numbered in the order in which they are made. */
  datatype Exec = Exec(sync: bool, ticks: seq<nat>, delivered: seq<nat>, made: nat)

  datatype Event = NativeCallback | ExecuteReturns | Tick

  /** A command that finds no connection puts its one error callback on the tick queue. */
  function Init(connected: bool): Exec {
    if connected then Exec(true, [], [], 0) else Exec(true, [0], [], 1)
  }

  predicate Enabled(s: Exec, e: Event) {
    match e
    case NativeCallback => true
    case ExecuteReturns => s.sync
    case Tick => !s.sync && s.ticks != []
  }

  function Step(s: Exec, e: Event): Exec
    requires Enabled(s, e)
  {
    match e
    case NativeCallback =>
      if s.sync then s.(ticks := s.ticks + [s.made], made := s.made + 1)
      else s.(delivered := s.delivered + [s.made], made := s.made + 1)
    case ExecuteReturns => s.(sync := false)
    case Tick => s.(ticks := s.ticks[1..], delivered := s.delivered + [s.ticks[0]])
  }

  /** The tick queue is drained before the next native event. */
  predicate Drained(s: Exec, e: Event) { e.NativeCallback? && !s.sync ==> s.ticks == [] }

  predicate IsRun(s: Exec, es: seq<Event>)
    decreases |es|
  {
    es != [] ==> Enabled(s, es[0]) && IsRun(Step(s, es[0]), es[1..])
  }

  predicate DrainedRun(s: Exec, es: seq<Event>)
    requires IsRun(s, es)
    decreases |es|
  {
    es != [] ==> Drained(s, es[0]) && DrainedRun(Step(s, es[0]), es[1..])
  }

  function Final(s: Exec, es: seq<Event>): Exec
    requires IsRun(s, es)
    decreases |es|
  {
    if es == [] then s else Final(Step(s, es[0]), es[1..])
  }

  function Upto(n: nat): (r: seq<nat>)
    ensures |r| == n && forall i | 0 <= i < n :: r[i] == i
  {
    seq(n, i => i)
  }

  /** What has been delivered, and then what is queued, are the callbacks made, in order. */
  predicate Ordered(s: Exec) { s.delivered + s.ticks == Upto(s.made) }

  predicate Inv(s: Exec) {
    && (s.sync ==> s.delivered == [])
    && (forall i | 0 <= i < |s.ticks| :: s.ticks[i] < s.made)
    && |s.delivered| + |s.ticks| == s.made
  }

  lemma {:induction false} UptoNext(a: seq<nat>, n: nat)
    requires |a| == n
    ensures a + [n] == Upto(n + 1) <==> a == Upto(n)
  {
    assert (a + [n])[..n] == a && Upto(n + 1)[..n] == Upto(n);
  }

  lemma {:induction false} StepOrdered(s: Exec, e: Event)
    requires Inv(s) && Enabled(s, e)
    ensures Inv(Step(s, e))
    ensures Ordered(Step(s, e)) <==> Ordered(s) && Drained(s, e)
  {
    var s' := Step(s, e);
    var before, after := s.delivered + s.ticks, s'.delivered + s'.ticks;
    match e
    case NativeCallback =>
      if s.sync || s.ticks == [] {
        assert after == before + [s.made];
        UptoNext(before, s.made);
      } else {
        assert after[s.made] == s.ticks[|s.ticks| - 1] && Upto(s.made + 1)[s.made] == s.made;
      }
    case ExecuteReturns =>
    case Tick =>
      assert after == before;
  }

  /** Callback discipline. In every run no user callback runs before `execute` has returned, and
      the user callbacks are the native ones, one for one and in order, exactly when the tick
      queue was drained before each native callback that came later. */
  lemma {:induction false} CallbackDiscipline(s: Exec, es: seq<Event>)
    requires Inv(s) && Ordered(s) && IsRun(s, es)
    ensures var f := Final(s, es);
      && Inv(f)
      && (f.sync ==> f.delivered == [])
      && (Ordered(f) <==> DrainedRun(s, es))
      && (f.ticks == [] && DrainedRun(s, es) ==> f.delivered == Upto(f.made))
    decreases |es|
  {
    if es != [] {
      StepOrdered(s, es[0]);
      if Drained(s, es[0]) {
        CallbackDiscipline(Step(s, es[0]), es[1..]);
      } else {
        StaysDisordered(Step(s, es[0]), es[1..]);
      }
    }
    var f := Final(s, es);
    assert f.ticks == [] ==> f.delivered + f.ticks == f.delivered;
  }

  /** Once out of order, always out of order. */
  lemma {:induction false} StaysDisordered(s: Exec, es: seq<Event>)
    requires Inv(s) && !Ordered(s) && IsRun(s, es)
    ensures Inv(Final(s, es)) && !Ordered(Final(s, es))
    decreases |es|
  {
    if es != [] {
      StepOrdered(s, es[0]);
      StaysDisordered(Step(s, es[0]), es[1..]);
    }
  }

  lemma {:induction false} InitOk(connected: bool)
    ensures Inv(Init(connected)) && Ordered(Init(connected))
  {
    assert [] + Init(connected).ticks == Init(connected).ticks;
  }

  // What a command comes to.

  function NativeCalls(es: seq<Event>): nat
    decreases |es|
  {
    if es == [] then 0 else (if es[0].NativeCallback? then 1 else 0) + NativeCalls(es[1..])
  }

  lemma {:induction false} MadeCount(s: Exec, es: seq<Event>)
    requires IsRun(s, es)
    ensures Final(s, es).made == s.made + NativeCalls(es)
    decreases |es|
  {
    if es != [] { MadeCount(Step(s, es[0]), es[1..]); }
  }

  /** In every run of a command, callbacks are delivered only after `execute` has returned; once
      it has and the queue is empty, there has been one user callback for each native one, and one
      more if there was no connection. */
  lemma {:induction false} CallsBack(connected: bool, es: seq<Event>)
    requires IsRun(Init(connected), es)
    ensures var f := Final(Init(connected), es);
      && (f.sync ==> f.delivered == [])
      && (!f.sync && f.ticks == [] ==> |f.delivered| == NativeCalls(es) + if connected then 0 else 1)
  {
    InitOk(connected);
    MadeCount(Init(connected), es);
    CallbackDiscipline(Init(connected), es);
  }

  /** Without a connection and without native callbacks there is still something to happen until the
      one callback with the error has run. */
  lemma {:induction false} ErrorComes(es: seq<Event>)
    requires IsRun(Init(false), es) && NativeCalls(es) == 0
    ensures var f := Final(Init(false), es);
      |f.delivered| <= 1 && (f.delivered == [] ==> Enabled(f, ExecuteReturns) || Enabled(f, Tick))
  {
    InitOk(false);
    MadeCount(Init(false), es);
    CallbackDiscipline(Init(false), es);
  }

  /** `executeWithCallback` with its local flag; `ticks` stands for the process tick queue. */
  class Execution {
    var sync: bool
    var ticks: seq<nat>
    var delivered: seq<nat>
    var made: nat

    ghost function View(): Exec
      reads this
    {
      Exec(sync, ticks, delivered, made)
    }

    constructor (connected: bool)
      ensures View() == Init(connected)
    {
      sync, delivered := true, [];
      if connected {
        ticks, made := [], 0;
      } else {
        ticks, made := [0], 1;
      }
    }

    /** The function handed to the native side. */
    method OnNativeCallback()
      modifies this
      ensures View() == Step(old(View()), NativeCallback)
    {
      if sync {
        ticks := ticks + [made];
      } else {
        delivered := delivered + [made];
      }
      made := made + 1;
    }

    method Return()
      requires sync
      modifies this
      ensures View() == Step(old(View()), ExecuteReturns)
    {
      sync := false;
    }

    method RunTick()
      requires !sync && ticks != []
      modifies this
      ensures View() == Step(old(View()), Tick)
    {
      var callback := ticks[0];
      ticks := ticks[1..];
      delivered := delivered + [callback];
    }
  }
}
