/** `throwDarts` of examples/geospatialMonteCarlo.js: at most `maxInFlight` requests at a time,
    each completion starting the next. */
module Darts {

  /** `thrown` is the ids thrown so far, `landed` the number of completions, `resolved` the
      number of calls of resolve. */
  datatype Game = Game(darts: nat, current: nat, inflight: int, thrown: seq<nat>, landed: nat, resolved: nat)

  function Start(darts: nat): Game { Game(darts, 0, 0, [], 0, 0) }

  function Throw(g: Game): Game {
    g.(current := g.current + 1, inflight := g.inflight + 1, thrown := g.thrown + [g.current + 1])
  }

  function ThrowMany(g: Game, n: nat): Game { if n == 0 then g else Throw(ThrowMany(g, n - 1)) }

  /** The callback of one dart. */
  function Land(g: Game): Game {
    var h := g.(inflight := g.inflight - 1, landed := g.landed + 1);
    if h.current < h.darts then Throw(h)
    else if h.inflight == 0 then h.(resolved := h.resolved + 1)
    else h
  }

  function Min(a: nat, b: nat): nat { if a < b then a else b }

  /** The callbacks of puts are never synchronous, so the first loop runs to its end before any
      dart lands; then darts land one at a time. */
  function Play(darts: nat, maxInFlight: nat, landings: nat): Game {
    if landings == 0 then ThrowMany(Start(darts), Min(maxInFlight, darts))
    else Land(Play(darts, maxInFlight, landings - 1))
  }

  function Ids(n: nat): (s: seq<nat>)
    ensures |s| == n && forall i | 0 <= i < n :: s[i] == i + 1
  {
    seq(n, i => i + 1)
  }

  predicate Inv(g: Game, maxInFlight: nat) {
    && g.thrown == Ids(g.current) && g.current <= g.darts
    && g.current == g.landed + g.inflight
    && 0 <= g.inflight <= Min(maxInFlight, g.darts)
    && (g.current < g.darts ==> g.inflight == Min(maxInFlight, g.darts))
    && g.resolved == if g.darts > 0 && maxInFlight > 0 && g.landed == g.darts then 1 else 0
  }

  lemma {:induction false} ThrowManyFacts(darts: nat, n: nat)
    requires n <= darts
    ensures ThrowMany(Start(darts), n) == Game(darts, n, n, Ids(n), 0, 0)
  {
    if n == 0 {
      assert Ids(0) == [];
    } else {
      ThrowManyFacts(darts, n - 1);
      assert Ids(n - 1) + [n] == Ids(n);
    }
  }

  /** As long as a dart is in flight, its landing keeps all promises. */
  lemma {:induction false} LandKeeps(g: Game, maxInFlight: nat)
    requires Inv(g, maxInFlight) && g.inflight > 0
    ensures Inv(Land(g), maxInFlight) && Land(g).landed == g.landed + 1
  {
    if g.current < g.darts {
      assert Ids(g.current) + [g.current + 1] == Ids(g.current + 1);
    }
  }

  /** Bounded scheduler: however many darts have landed, in whatever order, every id from 1 up
      to the current one has been thrown exactly once and in order, no more are in flight than
      allowed, the counts agree, there is always something in flight until the end, and the
      promise is resolved once, exactly when the last dart has landed. */
  lemma {:induction false} Scheduler(darts: nat, maxInFlight: nat, landings: nat)
    requires landings <= darts && (maxInFlight > 0 || landings == 0)
    ensures var g := Play(darts, maxInFlight, landings);
      && Inv(g, maxInFlight) && g.darts == darts && g.landed == landings
      && (landings < darts && maxInFlight > 0 ==> g.inflight > 0 && g.resolved == 0)
      && (landings == darts && darts > 0 ==> g.thrown == Ids(darts) && g.inflight == 0 && g.resolved == 1)
  {
    if landings == 0 {
      ThrowManyFacts(darts, Min(maxInFlight, darts));
    } else {
      Scheduler(darts, maxInFlight, landings - 1);
      LandKeeps(Play(darts, maxInFlight, landings - 1), maxInFlight);
    }
  }

  /** With no dart to throw, or no request allowed in flight, nothing is ever thrown and the
      promise is never resolved. */
  lemma {:induction false} NeverResolves(darts: nat, maxInFlight: nat)
    ensures Play(darts, maxInFlight, 0).inflight == 0 <==> darts == 0 || maxInFlight == 0
    ensures Play(darts, maxInFlight, 0).resolved == 0
  {
    ThrowManyFacts(darts, Min(maxInFlight, darts));
  }

  // Darts land in any order.

  /** The game with the ids in the air and the ids landed. */
  datatype Flight = Flight(game: Game, aloft: set<nat>, down: set<nat>)

  function IdSet(n: nat): (s: set<nat>)
    ensures |s| == n && forall i :: i in s <==> 1 <= i <= n
  {
    if n == 0 then {} else IdSet(n - 1) + {n}
  }

  function Elems(order: seq<nat>): set<nat> { set id | id in order }

  function TakeOff(darts: nat, maxInFlight: nat): Flight {
    var g := Play(darts, maxInFlight, 0);
    Flight(g, IdSet(g.current), {})
  }

  function LandId(f: Flight, id: nat): Flight
    requires id in f.aloft
  {
    var g := Land(f.game);
    Flight(g, f.aloft - {id} + (if g.current > f.game.current then {g.current} else {}), f.down + {id})
  }

  predicate IsOrder(f: Flight, order: seq<nat>)
    decreases |order|
  {
    order != [] ==> order[0] in f.aloft && IsOrder(LandId(f, order[0]), order[1..])
  }

  function Landed(f: Flight, order: seq<nat>): Flight
    requires IsOrder(f, order)
    decreases |order|
  {
    if order == [] then f else Landed(LandId(f, order[0]), order[1..])
  }

  /** Two sets share out the ids up to `n`. */
  ghost predicate Share(aloft: set<nat>, down: set<nat>, n: nat) {
    aloft !! down && forall i :: (i in aloft || i in down) <==> 1 <= i <= n
  }

  ghost predicate FlightInv(f: Flight, maxInFlight: nat) {
    && Inv(f.game, maxInFlight) && Share(f.aloft, f.down, f.game.current)
    && |f.aloft| == f.game.inflight && |f.down| == f.game.landed
  }

  lemma {:induction false} LandIdKeeps(f: Flight, id: nat, maxInFlight: nat)
    requires FlightInv(f, maxInFlight) && id in f.aloft
    ensures FlightInv(LandId(f, id), maxInFlight)
    ensures LandId(f, id).game.landed == f.game.landed + 1 && LandId(f, id).game.darts == f.game.darts
  {
    assert Inv(Land(f.game), maxInFlight) && Land(f.game).landed == f.game.landed + 1 by {
      LandKeeps(f.game, maxInFlight);
    }
    Move(f.aloft, f.down, f.game.current, id, f.game.current < f.game.darts);
  }

  /** One id comes down and perhaps the next one goes up. */
  lemma {:induction false} Move(aloft: set<nat>, down: set<nat>, n: nat, id: nat, next: bool)
    requires Share(aloft, down, n) && id in aloft
    ensures var aloft' := aloft - {id} + (if next then {n + 1} else {});
      && Share(aloft', down + {id}, if next then n + 1 else n)
      && |down + {id}| == |down| + 1 && |aloft'| == |aloft| - 1 + (if next then 1 else 0)
  {
    var rest := aloft - {id};
    assert |rest| == |aloft| - 1;
    assert n + 1 !in aloft && rest + {} == rest;
  }

  lemma {:induction false} OrderKeeps(f: Flight, order: seq<nat>, maxInFlight: nat)
    requires FlightInv(f, maxInFlight) && IsOrder(f, order)
    ensures var f' := Landed(f, order);
      && FlightInv(f', maxInFlight) && f'.game.darts == f.game.darts
      && f'.game.landed == f.game.landed + |order| && f'.down == f.down + Elems(order)
    decreases |order|
  {
    if order == [] {
      assert Elems(order) == {};
    } else {
      var next := LandId(f, order[0]);
      LandIdKeeps(f, order[0], maxInFlight);
      OrderKeeps(next, order[1..], maxInFlight);
      ElemsCons(f.down, order);
    }
  }

  lemma {:induction false} ElemsCons(s: set<nat>, order: seq<nat>)
    requires order != []
    ensures s + Elems(order) == s + {order[0]} + Elems(order[1..])
  {
    assert order == [order[0]] + order[1..];
  }

  /** In whatever order darts land: no more land than there are, they are different, until the
      last one another can land, and when all have landed they are 1..noDarts, all of them
      thrown once, and the promise has been resolved once. */
  lemma {:induction false} AnyOrder(darts: nat, maxInFlight: nat, order: seq<nat>)
    requires maxInFlight > 0 && darts > 0 && IsOrder(TakeOff(darts, maxInFlight), order)
    ensures var f := Landed(TakeOff(darts, maxInFlight), order);
      && |order| <= darts && f.down == Elems(order) && |f.down| == |order|
      && |f.aloft| <= Min(maxInFlight, darts) && (|order| < darts ==> f.aloft != {} && f.game.resolved == 0)
      && (|order| == darts ==>
            (forall id :: id in f.down <==> 1 <= id <= darts)
            && f.game.thrown == Ids(darts) && f.game.resolved == 1)
  {
    var f0 := TakeOff(darts, maxInFlight);
    assert FlightInv(f0, maxInFlight) && f0.game.darts == darts && f0.game.landed == 0 by {
      Scheduler(darts, maxInFlight, 0);
    }
    OrderKeeps(f0, order, maxInFlight);
    assert {} + Elems(order) == Elems(order);
    FlightFacts(Landed(f0, order), maxInFlight);
  }

  lemma {:induction false} FlightFacts(f: Flight, maxInFlight: nat)
    requires FlightInv(f, maxInFlight) && maxInFlight > 0 && f.game.darts > 0
    ensures |f.down| <= f.game.darts && |f.aloft| <= Min(maxInFlight, f.game.darts)
    ensures |f.down| < f.game.darts ==> f.aloft != {} && f.game.resolved == 0
    ensures |f.down| == f.game.darts ==>
      (forall id :: id in f.down <==> 1 <= id <= f.game.darts)
      && f.game.thrown == Ids(f.game.darts) && f.game.resolved == 1
  {
    if |f.down| == f.game.darts { assert f.aloft == {}; }
  }

  // Synchronous callbacks would break it.

  /** A throw whose callback runs at once, and so on until a callback throws no more. */
  function ThrowSync(g: Game): Game
    decreases g.darts - g.current
  {
    var h := Throw(g);
    var k := h.(inflight := h.inflight - 1, landed := h.landed + 1);
    if k.current < k.darts then ThrowSync(k)
    else if k.inflight == 0 then k.(resolved := k.resolved + 1) else k
  }

  /** The loop when every callback is synchronous. */
  function PlaySync(darts: nat, n: nat): Game {
    if n == 0 then Start(darts) else ThrowSync(PlaySync(darts, n - 1))
  }

  /** A game with nothing in flight that has thrown the first `n` ids. */
  function Quiet(darts: nat, n: nat, resolved: nat): Game { Game(darts, n, 0, Ids(n), n, resolved) }

  /** One synchronous throw plays the game to its end; after the end it throws one dart too many
      and resolves again. */
  lemma {:induction false} SyncThrow(darts: nat, n: nat, resolved: nat)
    ensures ThrowSync(Quiet(darts, n, resolved)) == Quiet(darts, if n < darts then darts else n + 1, resolved + 1)
    decreases darts - n
  {
    assert Ids(n) + [n + 1] == Ids(n + 1);
    if n + 1 < darts { SyncThrow(darts, n + 1, resolved); }
  }

  lemma {:induction false} SyncLoop(darts: nat, n: nat)
    requires 0 < n <= darts
    ensures PlaySync(darts, n) == Quiet(darts, darts + n - 1, n)
  {
    if n == 1 {
      assert Ids(0) == [];
      assert PlaySync(darts, 0) == Quiet(darts, 0, 0);
      SyncThrow(darts, 0, 0);
    } else {
      SyncLoop(darts, n - 1);
      SyncThrow(darts, darts + n - 2, n - 1);
    }
  }

  /** If callbacks were synchronous, the game would be right exactly when the pipe holds one
      dart: every further turn of the loop throws a dart too many and resolves again. */
  lemma {:induction false} SynchronousCallbacks(darts: nat, maxInFlight: nat)
    requires darts > 0 && maxInFlight > 0
    ensures var g := PlaySync(darts, Min(maxInFlight, darts));
      && |g.thrown| == darts + Min(maxInFlight, darts) - 1 && g.resolved == Min(maxInFlight, darts)
      && (g.thrown == Ids(darts) && g.resolved == 1 <==> darts == 1 || maxInFlight == 1)
  {
    SyncLoop(darts, Min(maxInFlight, darts));
  }

  /** The closure variables of `throwDarts`. */
  class ThrowDarts {
    const noDarts: nat
    const maxInFlight: nat
    var current: nat
    var inflight: int
    var thrown: seq<nat>
    var landed: nat
    var resolved: nat

    ghost function View(): Game
      reads this
    {
      Game(noDarts, current, inflight, thrown, landed, resolved)
    }

    constructor (noDarts: nat, maxInFlight: nat)
      ensures View() == Start(noDarts) && this.maxInFlight == maxInFlight
    {
      this.noDarts, this.maxInFlight := noDarts, maxInFlight;
      current, inflight, thrown, landed, resolved := 0, 0, [], 0, 0;
    }

    method ThrowDart()
      modifies `thrown
      ensures thrown == old(thrown) + [current]
    {
      thrown := thrown + [current];
    }

    /** The loop that fills the pipe. */
    method Fill()
      requires View() == Start(noDarts)
      modifies this
      ensures View() == Play(noDarts, maxInFlight, 0)
    {
      var i := 0;
      while i < Min(maxInFlight, noDarts)
        invariant 0 <= i <= Min(maxInFlight, noDarts)
        invariant View() == ThrowMany(Start(noDarts), i)
      {
        current := current + 1;
        inflight := inflight + 1;
        ThrowDart();
        i := i + 1;
      }
    }

    /** The callback. */
    method OnLanded()
      modifies this
      ensures View() == Land(old(View()))
    {
      inflight := inflight - 1;
      landed := landed + 1;
      if current < noDarts {
        current := current + 1;
        inflight := inflight + 1;
        ThrowDart();
      } else if inflight == 0 {
        resolved := resolved + 1;
      }
    }
  }
}
