/** `throwDarts` on top of real commands: each dart is a put, whose native callback may come at any
    time, during the call too. */
module DartsRuns {
  import opened Prelude
  import C = Command
  import D = Darts

  /** `turns` is what is left of the first loop, `stack` the dart whose `execute` is running,
      `queue` the tick queue of the process. */
  datatype Sys = Sys(game: D.Game, turns: nat, stack: Option<nat>, commands: map<nat, C.Exec>, queue: seq<nat>)

  datatype Event = Turn | Calls(id: nat) | Returns | RunTick

  function Start(darts: nat, maxInFlight: nat): Sys {
    Sys(D.Start(darts), D.Min(maxInFlight, darts), None, map[], [])
  }

  predicate Idle(s: Sys) { s.stack.None? && s.turns == 0 }

  /** The native side calls a put back once: while the put is running, or when nothing is. */
  predicate Enabled(s: Sys, e: Event) {
    match e
    case Turn => s.stack.None? && s.turns > 0
    case Calls(id) => id in s.commands && s.commands[id].made == 0 && (s.stack == Some(id) || Idle(s))
    case Returns => s.stack.Some? && s.stack.value in s.commands && s.commands[s.stack.value].sync
    case RunTick =>
      Idle(s) && s.queue != [] && s.queue[0] in s.commands && C.Enabled(s.commands[s.queue[0]], C.Tick)
  }

  /** A dart has been thrown: its put is running. */
  function Put(s: Sys): Sys {
    s.(commands := s.commands[s.game.current := C.Init(true)], stack := Some(s.game.current))
  }

  /** The callback of one dart. */
  function Landed(s: Sys): Sys {
    var t := s.(game := D.Land(s.game));
    if t.game.current > s.game.current then Put(t) else t
  }

  /** One step of one command; its callback runs when it is delivered. */
  function Act(s: Sys, id: nat, e: C.Event): Sys
    requires id in s.commands && C.Enabled(s.commands[id], e)
  {
    var before, after := s.commands[id], C.Step(s.commands[id], e);
    var t := s.(commands := s.commands[id := after],
                queue := if |after.ticks| > |before.ticks| then s.queue + [id] else s.queue);
    if |after.delivered| > |before.delivered| then Landed(t) else t
  }

  function Step(s: Sys, e: Event): Sys
    requires Enabled(s, e)
  {
    match e
    case Turn => Put(s.(game := D.Throw(s.game), turns := s.turns - 1))
    case Calls(id) => Act(s, id, C.NativeCallback)
    case Returns => Act(s, s.stack.value, C.ExecuteReturns).(stack := None)
    case RunTick => Act(s.(queue := s.queue[1..]), s.queue[0], C.Tick)
  }

  // Every run.

  function Down(commands: map<nat, C.Exec>): set<nat> {
    set id | id in commands && commands[id].delivered != []
  }

  /** A command with one callback: running or not, its callback waiting for a tick or not; and if
      neither, its callback has run or is still to come. */
  predicate CommandOk(x: C.Exec, running: bool, queued: bool) {
    if running then x == if queued then C.Exec(true, [0], [], 1) else C.Exec(true, [], [], 0)
    else if queued then x == C.Exec(false, [0], [], 1)
    else x == C.Exec(false, [], [], 0) || x == C.Exec(false, [], [0], 1)
  }

  predicate Different(queue: seq<nat>) { forall i, j | 0 <= i < j < |queue| :: queue[i] != queue[j] }

  /** The ids up to `n` have commands, of which the one on the stack is running, and those in the
      queue wait for their tick. */
  ghost predicate CommandsOk(commands: map<nat, C.Exec>, stack: Option<nat>, queue: seq<nat>, n: nat) {
    && commands.Keys == D.IdSet(n)
    && (stack.Some? ==> stack.value in commands)
    && (forall id | id in commands :: CommandOk(commands[id], stack == Some(id), id in queue))
    && Different(queue) && forall id | id in queue :: id in commands
  }

  /** One command changes. */
  lemma {:induction false} Updated(commands: map<nat, C.Exec>, stack: Option<nat>, queue: seq<nat>, n: nat,
                                   id: nat, x: C.Exec, stack': Option<nat>, queue': seq<nat>)
    requires CommandsOk(commands, stack, queue, n) && id in commands
    requires CommandOk(x, stack' == Some(id), id in queue') && Different(queue')
    requires forall k | k != id :: k in queue <==> k in queue'
    requires stack' == stack || (stack == Some(id) && stack' == None)
    ensures CommandsOk(commands[id := x], stack', queue', n)
    ensures Down(commands[id := x]) == if x.delivered != [] then Down(commands) + {id} else Down(commands) - {id}
  {
    var more := commands[id := x];
    assert more.Keys == commands.Keys;
    forall k | k in more ensures CommandOk(more[k], stack' == Some(k), k in queue') {
      if k != id { assert CommandOk(commands[k], stack == Some(k), k in queue); }
    }
    DownUpdated(commands, id, x);
  }

  lemma {:induction false} DownUpdated(commands: map<nat, C.Exec>, id: nat, x: C.Exec)
    ensures Down(commands[id := x]) == if x.delivered != [] then Down(commands) + {id} else Down(commands) - {id}
  {
  }

  /** A new command has landed nothing. */
  lemma {:induction false} Added(commands: map<nat, C.Exec>, queue: seq<nat>, n: nat)
    requires CommandsOk(commands, None, queue, n)
    ensures CommandsOk(commands[n + 1 := C.Init(true)], Some(n + 1), queue, n + 1)
    ensures Down(commands[n + 1 := C.Init(true)]) == Down(commands)
  {
    var more := commands[n + 1 := C.Init(true)];
    NextId(n, commands.Keys);
    assert more.Keys == commands.Keys + {n + 1};
    forall k | k in more ensures CommandOk(more[k], Some(n + 1) == Some(k), k in queue) {
      if k != n + 1 { assert CommandOk(commands[k], false, k in queue); }
    }
  }

  lemma {:induction false} NextId(n: nat, keys: set<nat>)
    requires keys == D.IdSet(n)
    ensures keys + {n + 1} == D.IdSet(n + 1) && n + 1 !in keys
  {
  }

  /** The first loop has run so far, or so many darts have landed. */
  ghost predicate GameOk(game: D.Game, turns: nat, darts: nat, maxInFlight: nat) {
    var m := D.Min(maxInFlight, darts);
    && turns <= m && game.landed <= darts
    && game == if turns > 0 then D.ThrowMany(D.Start(darts), m - turns) else D.Play(darts, maxInFlight, game.landed)
  }

  ghost predicate Inv(s: Sys, darts: nat, maxInFlight: nat) {
    && CommandsOk(s.commands, s.stack, s.queue, s.game.current)
    && GameOk(s.game, s.turns, darts, maxInFlight) && s.game.landed == |Down(s.commands)|
  }

  lemma {:induction false} StartInv(darts: nat, maxInFlight: nat)
    ensures Inv(Start(darts, maxInFlight), darts, maxInFlight)
  {
    assert Down(map[]) == {};
  }

  /** What is known of the game in a state. */
  lemma {:induction false} GameFacts(g: D.Game, turns: nat, darts: nat, maxInFlight: nat)
    requires GameOk(g, turns, darts, maxInFlight) && maxInFlight > 0
    ensures g.darts == darts && g.current <= darts && g.current == g.landed + g.inflight
    ensures turns == 0 ==> D.Inv(g, maxInFlight)
    ensures turns > 0 ==> g.landed == 0 && g.current == D.Min(maxInFlight, darts) - turns
  {
    if turns > 0 {
      D.ThrowManyFacts(darts, D.Min(maxInFlight, darts) - turns);
    } else {
      D.Scheduler(darts, maxInFlight, g.landed);
    }
  }

  lemma {:induction false} TurnGame(g: D.Game, turns: nat, darts: nat, maxInFlight: nat)
    requires GameOk(g, turns, darts, maxInFlight) && maxInFlight > 0 && turns > 0
    ensures GameOk(D.Throw(g), turns - 1, darts, maxInFlight) && D.Throw(g).landed == g.landed
    ensures D.Throw(g).current == g.current + 1
  {
    D.ThrowManyFacts(darts, D.Min(maxInFlight, darts) - turns);
    assert D.Throw(g) == D.ThrowMany(D.Start(darts), D.Min(maxInFlight, darts) - (turns - 1));
  }

  lemma {:induction false} LandGame(g: D.Game, darts: nat, maxInFlight: nat)
    requires GameOk(g, 0, darts, maxInFlight) && maxInFlight > 0 && g.landed < g.current
    ensures GameOk(D.Land(g), 0, darts, maxInFlight) && D.Land(g).landed == g.landed + 1
    ensures D.Land(g).current == g.current || D.Land(g).current == g.current + 1
  {
    GameFacts(g, 0, darts, maxInFlight);
    assert D.Land(g) == D.Play(darts, maxInFlight, g.landed + 1);
  }

  lemma {:induction false} TurnInv(s: Sys, darts: nat, maxInFlight: nat)
    requires Inv(s, darts, maxInFlight) && maxInFlight > 0 && Enabled(s, Turn)
    ensures Inv(Step(s, Turn), darts, maxInFlight)
  {
    TurnGame(s.game, s.turns, darts, maxInFlight);
    Added(s.commands, s.queue, s.game.current);
  }

  /** One more callback has run: the game goes on as played. */
  lemma {:induction false} LandedInv(s: Sys, darts: nat, maxInFlight: nat)
    requires CommandsOk(s.commands, s.stack, s.queue, s.game.current)
    requires GameOk(s.game, s.turns, darts, maxInFlight) && maxInFlight > 0 && Idle(s)
    requires s.game.landed + 1 == |Down(s.commands)|
    ensures Inv(Landed(s), darts, maxInFlight)
  {
    Within(Down(s.commands), D.IdSet(s.game.current));
    LandGame(s.game, darts, maxInFlight);
    if D.Land(s.game).current > s.game.current { Added(s.commands, s.queue, s.game.current); }
  }

  lemma {:induction false} Within(a: set<nat>, b: set<nat>)
    requires a <= b
    ensures |a| <= |b|
  {
    assert b == a + (b - a);
  }

  /** What each step comes to, given the command that it is about. */
  lemma {:induction false} Steps(s: Sys, id: nat)
    requires id in s.commands && CommandOk(s.commands[id], s.stack == Some(id), id in s.queue)
    ensures Enabled(s, Calls(id)) && s.stack == Some(id) ==>
      Step(s, Calls(id)) == s.(commands := s.commands[id := C.Exec(true, [0], [], 1)], queue := s.queue + [id])
    ensures Enabled(s, Calls(id)) && s.stack != Some(id) ==>
      Step(s, Calls(id)) == Landed(s.(commands := s.commands[id := C.Exec(false, [], [0], 1)]))
    ensures Enabled(s, Returns) && s.stack == Some(id) ==>
      Step(s, Returns) == s.(commands := s.commands[id := s.commands[id].(sync := false)], stack := None)
    ensures Enabled(s, RunTick) && s.queue[0] == id ==>
      Step(s, RunTick) == Landed(s.(commands := s.commands[id := C.Exec(false, [], [0], 1)], queue := s.queue[1..]))
  {
    CommandSteps();
  }

  lemma {:induction false} CommandSteps()
    ensures C.Step(C.Exec(true, [], [], 0), C.NativeCallback) == C.Exec(true, [0], [], 1)
    ensures C.Step(C.Exec(false, [], [], 0), C.NativeCallback) == C.Exec(false, [], [0], 1)
    ensures C.Step(C.Exec(false, [0], [], 1), C.Tick) == C.Exec(false, [], [0], 1)
  {
    var none: seq<nat>, one: seq<nat> := [], [0];
    assert none + [0] == one && one[1..] == none;
  }

  /** A callback during the call is put off. */
  lemma {:induction false} PutOffInv(s: Sys, id: nat, darts: nat, maxInFlight: nat)
    requires Inv(s, darts, maxInFlight) && s.stack == Some(id) && s.commands[id].made == 0
    ensures Inv(s.(commands := s.commands[id := C.Exec(true, [0], [], 1)], queue := s.queue + [id]), darts, maxInFlight)
  {
    assert CommandOk(s.commands[id], true, id in s.queue);
    var after, queue := C.Exec(true, [0], [], 1), s.queue + [id];
    Joined(s.queue, id);
    Updated(s.commands, s.stack, s.queue, s.game.current, id, after, s.stack, queue);
    assert Down(s.commands) - {id} == Down(s.commands);
  }

  lemma {:induction false} ReturnedInv(s: Sys, id: nat, darts: nat, maxInFlight: nat)
    requires Inv(s, darts, maxInFlight) && s.stack == Some(id)
    ensures Inv(s.(commands := s.commands[id := s.commands[id].(sync := false)], stack := None), darts, maxInFlight)
  {
    assert CommandOk(s.commands[id], true, id in s.queue);
    var after := s.commands[id].(sync := false);
    Updated(s.commands, s.stack, s.queue, s.game.current, id, after, None, s.queue);
    assert Down(s.commands) - {id} == Down(s.commands);
  }

  lemma {:induction false} Same(s: Sys, t: Sys, darts: nat, maxInFlight: nat)
    requires s == t && Inv(s, darts, maxInFlight)
    ensures Inv(t, darts, maxInFlight)
  {
  }

  lemma {:induction false} CallsInv(s: Sys, id: nat, darts: nat, maxInFlight: nat)
    requires Inv(s, darts, maxInFlight) && maxInFlight > 0 && Enabled(s, Calls(id))
    ensures Inv(Step(s, Calls(id)), darts, maxInFlight)
  {
    if s.stack == Some(id) {
      PutOffInv(s, id, darts, maxInFlight);
      assert CommandOk(s.commands[id], true, id in s.queue);
      Steps(s, id);
      Same(s.(commands := s.commands[id := C.Exec(true, [0], [], 1)], queue := s.queue + [id]), Step(s, Calls(id)),
           darts, maxInFlight);
    } else {
      var after := C.Exec(false, [], [0], 1);
      assert CommandOk(s.commands[id], false, id in s.queue);
      Updated(s.commands, s.stack, s.queue, s.game.current, id, after, s.stack, s.queue);
      LandedInv(s.(commands := s.commands[id := after]), darts, maxInFlight);
      Steps(s, id);
    }
  }

  lemma {:induction false} ReturnsInv(s: Sys, darts: nat, maxInFlight: nat)
    requires Inv(s, darts, maxInFlight) && Enabled(s, Returns)
    ensures Inv(Step(s, Returns), darts, maxInFlight)
  {
    var id := s.stack.value;
    ReturnedInv(s, id, darts, maxInFlight);
    assert CommandOk(s.commands[id], true, id in s.queue);
    Steps(s, id);
    Same(s.(commands := s.commands[id := s.commands[id].(sync := false)], stack := None), Step(s, Returns),
         darts, maxInFlight);
  }

  lemma {:induction false} TickInv(s: Sys, darts: nat, maxInFlight: nat)
    requires Inv(s, darts, maxInFlight) && maxInFlight > 0 && Enabled(s, RunTick)
    ensures Inv(Step(s, RunTick), darts, maxInFlight)
  {
    var id, rest := s.queue[0], s.queue[1..];
    assert CommandOk(s.commands[id], false, true);
    var t := s.(commands := s.commands[id := C.Exec(false, [], [0], 1)], queue := rest);
    HeadGone(s.queue);
    Updated(s.commands, s.stack, s.queue, s.game.current, id, C.Exec(false, [], [0], 1), s.stack, rest);
    LandedInv(t, darts, maxInFlight);
    Steps(s, id);
  }

  lemma {:induction false} Joined(queue: seq<nat>, id: nat)
    requires Different(queue) && id !in queue
    ensures Different(queue + [id]) && id in queue + [id]
    ensures forall k | k != id :: k in queue <==> k in queue + [id]
  {
  }

  lemma {:induction false} HeadGone(queue: seq<nat>)
    requires queue != [] && Different(queue)
    ensures Different(queue[1..]) && queue[0] !in queue[1..]
    ensures forall k | k != queue[0] :: k in queue <==> k in queue[1..]
  {
    assert queue == [queue[0]] + queue[1..];
  }

  lemma {:induction false} StepInv(s: Sys, e: Event, darts: nat, maxInFlight: nat)
    requires Inv(s, darts, maxInFlight) && maxInFlight > 0 && Enabled(s, e)
    ensures Inv(Step(s, e), darts, maxInFlight)
  {
    match e
    case Turn => TurnInv(s, darts, maxInFlight);
    case Calls(id) => CallsInv(s, id, darts, maxInFlight);
    case Returns => ReturnsInv(s, darts, maxInFlight);
    case RunTick => TickInv(s, darts, maxInFlight);
  }

  predicate IsRun(s: Sys, es: seq<Event>)
    decreases |es|
  {
    es != [] ==> Enabled(s, es[0]) && IsRun(Step(s, es[0]), es[1..])
  }

  function Final(s: Sys, es: seq<Event>): Sys
    requires IsRun(s, es)
    decreases |es|
  {
    if es == [] then s else Final(Step(s, es[0]), es[1..])
  }

  lemma {:induction false} RunInv(s: Sys, es: seq<Event>, darts: nat, maxInFlight: nat)
    requires Inv(s, darts, maxInFlight) && maxInFlight > 0 && IsRun(s, es)
    ensures Inv(Final(s, es), darts, maxInFlight)
    decreases |es|
  {
    if es != [] {
      StepInv(s, es[0], darts, maxInFlight);
      RunInv(Step(s, es[0]), es[1..], darts, maxInFlight);
    }
  }

  /** A put can be called back while it is running and, once nothing is, later too. */
  lemma {:induction false} BothTimings(s: Sys, id: nat, darts: nat, maxInFlight: nat)
    requires Inv(s, darts, maxInFlight) && id in s.commands && s.commands[id].made == 0
    ensures s.stack == Some(id) || Idle(s) <==> Enabled(s, Calls(id))
  {
  }

  // Every run ends.

  function Called(commands: map<nat, C.Exec>): set<nat> { set id | id in commands && commands[id].made > 0 }

  function Returned(commands: map<nat, C.Exec>): set<nat> { set id | id in commands && !commands[id].sync }

  /** How much has been done: turns of the loop, callbacks made, calls returned, callbacks run. */
  function Done(s: Sys, m: nat): int {
    m - s.turns + |Called(s.commands)| + |Returned(s.commands)| + |Down(s.commands)|
  }

  lemma {:induction false} AddedSame(commands: map<nat, C.Exec>, id: nat)
    requires id !in commands
    ensures Called(commands[id := C.Init(true)]) == Called(commands)
    ensures Returned(commands[id := C.Init(true)]) == Returned(commands)
    ensures Down(commands[id := C.Init(true)]) == Down(commands)
  {
  }

  lemma {:induction false} LandedSame(s: Sys, m: nat)
    requires s.commands.Keys == D.IdSet(s.game.current)
    ensures Done(Landed(s), m) == Done(s, m)
  {
    if D.Land(s.game).current > s.game.current { AddedSame(s.commands, D.Land(s.game).current); }
  }

  /** One command goes on by at least one of the three. */
  lemma {:induction false} Onward(commands: map<nat, C.Exec>, id: nat, x: C.Exec)
    requires id in commands
    requires commands[id].made <= x.made && (x.sync ==> commands[id].sync)
    requires commands[id].delivered != [] ==> x.delivered != []
    requires (commands[id].made == 0 && x.made > 0) || (commands[id].sync && !x.sync)
             || (commands[id].delivered == [] && x.delivered != [])
    ensures var more := commands[id := x];
      |Called(more)| + |Returned(more)| + |Down(more)| > |Called(commands)| + |Returned(commands)| + |Down(commands)|
  {
    CalledOnward(commands, id, x);
    ReturnedOnward(commands, id, x);
    DownOnward(commands, id, x);
  }

  lemma {:induction false} Plus(a: set<nat>, x: nat)
    ensures |a + {x}| == if x in a then |a| else |a| + 1
  {
    if x in a { assert a + {x} == a; }
  }

  lemma {:induction false} CalledOnward(commands: map<nat, C.Exec>, id: nat, x: C.Exec)
    requires id in commands && commands[id].made <= x.made
    ensures |Called(commands[id := x])| == |Called(commands)| + if commands[id].made == 0 && x.made > 0 then 1 else 0
  {
    var before, after := Called(commands), Called(commands[id := x]);
    if x.made > 0 {
      assert after == before + {id};
      Plus(before, id);
    } else {
      assert after == before;
    }
  }

  lemma {:induction false} ReturnedOnward(commands: map<nat, C.Exec>, id: nat, x: C.Exec)
    requires id in commands && (x.sync ==> commands[id].sync)
    ensures |Returned(commands[id := x])| == |Returned(commands)| + if commands[id].sync && !x.sync then 1 else 0
  {
    var before, after := Returned(commands), Returned(commands[id := x]);
    if !x.sync {
      assert after == before + {id};
      Plus(before, id);
    } else {
      assert after == before;
    }
  }

  lemma {:induction false} DownOnward(commands: map<nat, C.Exec>, id: nat, x: C.Exec)
    requires id in commands && (commands[id].delivered != [] ==> x.delivered != [])
    ensures |Down(commands[id := x])|
         == |Down(commands)| + if commands[id].delivered == [] && x.delivered != [] then 1 else 0
  {
    var before, after := Down(commands), Down(commands[id := x]);
    if x.delivered != [] {
      assert after == before + {id};
      Plus(before, id);
    } else {
      assert after == before;
    }
  }

  lemma {:induction false} TurnDone(s: Sys, m: nat)
    requires s.commands.Keys == D.IdSet(s.game.current) && Enabled(s, Turn)
    ensures Done(Step(s, Turn), m) > Done(s, m)
  {
    AddedSame(s.commands, s.game.current + 1);
  }

  lemma {:induction false} CallsDone(s: Sys, id: nat, m: nat)
    requires id in s.commands && CommandOk(s.commands[id], s.stack == Some(id), id in s.queue)
    requires s.commands.Keys == D.IdSet(s.game.current) && Enabled(s, Calls(id))
    ensures Done(Step(s, Calls(id)), m) > Done(s, m)
  {
    Steps(s, id);
    if s.stack == Some(id) {
      Onward(s.commands, id, C.Exec(true, [0], [], 1));
    } else {
      var t := s.(commands := s.commands[id := C.Exec(false, [], [0], 1)]);
      Onward(s.commands, id, C.Exec(false, [], [0], 1));
      assert t.commands.Keys == s.commands.Keys;
      LandedSame(t, m);
    }
  }

  lemma {:induction false} ReturnsDone(s: Sys, id: nat, m: nat)
    requires id in s.commands && CommandOk(s.commands[id], true, id in s.queue)
    requires s.stack == Some(id) && Enabled(s, Returns)
    ensures Done(Step(s, Returns), m) > Done(s, m)
  {
    Steps(s, id);
    Onward(s.commands, id, s.commands[id].(sync := false));
  }

  lemma {:induction false} TickDone(s: Sys, id: nat, m: nat)
    requires id in s.commands && CommandOk(s.commands[id], false, true)
    requires s.commands.Keys == D.IdSet(s.game.current) && Enabled(s, RunTick) && s.queue[0] == id
    ensures Done(Step(s, RunTick), m) > Done(s, m)
  {
    var t := s.(commands := s.commands[id := C.Exec(false, [], [0], 1)], queue := s.queue[1..]);
    Steps(s, id);
    Onward(s.commands, id, C.Exec(false, [], [0], 1));
    assert t.commands.Keys == s.commands.Keys;
    LandedSame(t, m);
  }

  lemma {:induction false} StepDone(s: Sys, e: Event, darts: nat, maxInFlight: nat)
    requires Inv(s, darts, maxInFlight) && Enabled(s, e)
    ensures Done(Step(s, e), D.Min(maxInFlight, darts)) > Done(s, D.Min(maxInFlight, darts))
  {
    var m := D.Min(maxInFlight, darts);
    match e
    case Turn => TurnDone(s, m);
    case Calls(id) =>
      assert CommandOk(s.commands[id], s.stack == Some(id), id in s.queue);
      CallsDone(s, id, m);
    case Returns =>
      assert CommandOk(s.commands[s.stack.value], true, s.stack.value in s.queue);
      ReturnsDone(s, s.stack.value, m);
    case RunTick =>
      assert CommandOk(s.commands[s.queue[0]], false, true);
      TickDone(s, s.queue[0], m);
  }

  lemma {:induction false} RunDone(s: Sys, es: seq<Event>, darts: nat, maxInFlight: nat)
    requires Inv(s, darts, maxInFlight) && maxInFlight > 0 && IsRun(s, es)
    ensures Done(Final(s, es), D.Min(maxInFlight, darts)) >= Done(s, D.Min(maxInFlight, darts)) + |es|
    decreases |es|
  {
    if es != [] {
      StepInv(s, es[0], darts, maxInFlight);
      StepDone(s, es[0], darts, maxInFlight);
      RunDone(Step(s, es[0]), es[1..], darts, maxInFlight);
    }
  }

  /** Each turn happens once, and each dart is called back, returns and lands at most once. */
  lemma {:induction false} DoneBound(s: Sys, darts: nat, maxInFlight: nat)
    requires Inv(s, darts, maxInFlight) && maxInFlight > 0
    ensures Done(s, D.Min(maxInFlight, darts)) <= D.Min(maxInFlight, darts) + 3 * darts
  {
    GameFacts(s.game, s.turns, darts, maxInFlight);
    Within(Called(s.commands), D.IdSet(s.game.current));
    Within(Returned(s.commands), D.IdSet(s.game.current));
    Within(Down(s.commands), D.IdSet(s.game.current));
  }

  /** Every run ends, after at most so many events. */
  lemma {:induction false} RunsEnd(darts: nat, maxInFlight: nat, es: seq<Event>)
    requires maxInFlight > 0 && IsRun(Start(darts, maxInFlight), es)
    ensures |es| <= D.Min(maxInFlight, darts) + 3 * darts
  {
    var s := Start(darts, maxInFlight);
    StartInv(darts, maxInFlight);
    RunInv(s, es, darts, maxInFlight);
    RunDone(s, es, darts, maxInFlight);
    DoneBound(Final(s, es), darts, maxInFlight);
  }

  /** Bounded scheduler on real commands: whenever the native side calls back, during the call or
      later, nothing lands before the first loop has run, after it the game is as played with so
      many landings, and when nothing more can happen, which it comes to after at most four events
      for each dart, all darts have landed, once each, and the promise has been resolved once. */
  lemma {:induction false} AnySchedule(darts: nat, maxInFlight: nat, es: seq<Event>)
    requires darts > 0 && maxInFlight > 0 && IsRun(Start(darts, maxInFlight), es)
    ensures var s := Final(Start(darts, maxInFlight), es);
      && (s.turns > 0 ==> s.game.landed == 0)
      && (s.turns == 0 ==> s.game.landed <= darts && s.game == D.Play(darts, maxInFlight, s.game.landed))
      && s.game.landed == |Down(s.commands)| && 0 <= s.game.inflight <= D.Min(maxInFlight, darts)
      && |es| <= 4 * darts
      && ((forall e :: !Enabled(s, e)) ==>
            s.game.landed == darts && s.game.thrown == D.Ids(darts) && s.game.inflight == 0 && s.game.resolved == 1)
  {
    var s := Final(Start(darts, maxInFlight), es);
    StartInv(darts, maxInFlight);
    RunInv(Start(darts, maxInFlight), es, darts, maxInFlight);
    RunsEnd(darts, maxInFlight, es);
    GameFacts(s.game, s.turns, darts, maxInFlight);
    if s.turns > 0 { D.ThrowManyFacts(darts, D.Min(maxInFlight, darts) - s.turns); }
    if forall e :: !Enabled(s, e) {
      Finished(s, darts, maxInFlight);
    }
  }

  lemma {:induction false} Finished(s: Sys, darts: nat, maxInFlight: nat)
    requires Inv(s, darts, maxInFlight) && darts > 0 && maxInFlight > 0 && forall e :: !Enabled(s, e)
    ensures s.game.landed == darts && s.game.thrown == D.Ids(darts) && s.game.inflight == 0 && s.game.resolved == 1
  {
    assert !Enabled(s, Turn) && !Enabled(s, Returns) && !Enabled(s, RunTick);
    assert s.queue != [] ==> CommandOk(s.commands[s.queue[0]], s.stack == Some(s.queue[0]), true);
    forall id | id in s.commands ensures id in Down(s.commands) {
      assert !Enabled(s, Calls(id));
      assert CommandOk(s.commands[id], false, false);
    }
    assert Down(s.commands) == s.commands.Keys;
    GameFacts(s.game, s.turns, darts, maxInFlight);
    D.Scheduler(darts, maxInFlight, s.game.landed);
  }
}
