/** `Job.pollUntilDone` of lib/job.js: poll once, and again on an interval timer that is set up
    after the first poll that finds the job unfinished. Polls may overlap. */
module JobPoll {

  datatype Status = Finished | Unfinished | Failed(error: int)

  datatype Promise = Pending | Resolved | Rejected(error: int)

  /** `timer` says whether the variable is set, which it stays after the interval is cleared;
      `active` says whether the interval is running; `created` counts calls of setInterval. */
  datatype Poll = Poll(timer: bool, active: bool, created: nat, outstanding: nat, promise: Promise)

  datatype Event = Fire | Answer(status: Status)

  /** The first poll is started at once. */
  const START := Poll(false, false, 0, 1, Pending)

  predicate Enabled(p: Poll, e: Event) {
    if e.Fire? then p.active else p.outstanding > 0
  }

  function Settle(promise: Promise, with: Promise): Promise { if promise.Pending? then with else promise }

  function Step(p: Poll, e: Event): Poll
    requires Enabled(p, e)
  {
    match e
    case Fire => p.(outstanding := p.outstanding + 1)
    case Answer(status) =>
      var q := p.(outstanding := p.outstanding - 1);
      match status
      case Finished => q.(active := if p.timer then false else p.active, promise := Settle(p.promise, Resolved))
      case Unfinished => if p.timer then q else q.(timer := true, active := true, created := p.created + 1)
      case Failed(error) =>
        q.(active := if p.timer then false else p.active, promise := Settle(p.promise, Rejected(error)))
  }

  predicate IsRun(p: Poll, es: seq<Event>)
    decreases |es|
  {
    es != [] ==> Enabled(p, es[0]) && IsRun(Step(p, es[0]), es[1..])
  }

  function Final(p: Poll, es: seq<Event>): Poll
    requires IsRun(p, es)
    decreases |es|
  {
    if es == [] then p else Final(Step(p, es[0]), es[1..])
  }

  predicate Terminal(e: Event) { e.Answer? && !e.status.Unfinished? }

  /** The verdict of the first terminal answer. */
  function Verdict(es: seq<Event>): Promise
    decreases |es|
  {
    if es == [] then Pending
    else if !Terminal(es[0]) then Verdict(es[1..])
    else if es[0].status.Finished? then Resolved else Rejected(es[0].status.error)
  }

  predicate Inv(p: Poll) {
    && p.created == (if p.timer then 1 else 0)
    && (p.active ==> p.timer)
    && (p.promise.Pending? && p.timer ==> p.active)
    && (!p.promise.Pending? ==> !p.active)
    && (!p.timer ==> p.outstanding == if p.promise.Pending? then 1 else 0)
  }

  /** Poll safety over all interleavings: the interval is created at most once, a settled
      promise has no active interval, the first terminal answer decides, no status call starts
      after it, and an unsettled promise always has a poll on its way or to come. */
  lemma {:induction false} PollSafety(p: Poll, es: seq<Event>)
    requires Inv(p) && IsRun(p, es)
    ensures var f := Final(p, es);
      && f.created <= 1
      && (!f.promise.Pending? ==> !f.active)
      && (f.promise.Pending? ==> f.active || f.outstanding > 0)
      && f.promise == Settle(p.promise, Verdict(es))
      && Inv(f)
    ensures forall i, j | 0 <= i < j < |es| && Terminal(es[i]) :: !es[j].Fire?
    ensures !p.promise.Pending? ==> forall j | 0 <= j < |es| :: !es[j].Fire?
    decreases |es|
  {
    if es != [] {
      PollSafety(Step(p, es[0]), es[1..]);
      assert forall j | 0 < j < |es| :: es[j] == es[1..][j - 1];
    }
  }

  function Count(es: seq<Event>, fires: bool): nat
    decreases |es|
  {
    if es == [] then 0 else (if es[0].Fire? == fires then 1 else 0) + Count(es[1..], fires)
  }

  /** There is one status call at first and one more each time the interval fires; each is answered
      at most once. */
  lemma {:induction false} CallsCount(es: seq<Event>)
    requires IsRun(START, es)
    ensures Final(START, es).outstanding == 1 + Count(es, true) - Count(es, false)
  {
    CallsFrom(START, es);
  }

  lemma {:induction false} CallsFrom(p: Poll, es: seq<Event>)
    requires IsRun(p, es)
    ensures Final(p, es).outstanding == p.outstanding + Count(es, true) - Count(es, false)
    decreases |es|
  {
    if es != [] { CallsFrom(Step(p, es[0]), es[1..]); }
  }

  /** As long as no answer is terminal, the first one that says unfinished starts the interval, and
      it goes on. */
  lemma {:induction false} KeepsPolling(es: seq<Event>)
    requires IsRun(START, es) && forall i | 0 <= i < |es| :: !Terminal(es[i])
    ensures var f := Final(START, es);
      f.promise == Pending && (f.active <==> Count(es, false) > 0) && f.created == if f.active then 1 else 0
  {
    PollsFrom(START, es);
  }

  lemma {:induction false} PollsFrom(p: Poll, es: seq<Event>)
    requires Inv(p) && p.promise.Pending? && IsRun(p, es) && forall i | 0 <= i < |es| :: !Terminal(es[i])
    ensures var f := Final(p, es);
      f.promise == Pending && (f.active <==> p.active || Count(es, false) > 0) && f.created == if f.active then 1 else 0
    decreases |es|
  {
    if es != [] {
      assert forall i | 0 <= i < |es[1..]| :: es[1..][i] == es[i + 1];
      PollsFrom(Step(p, es[0]), es[1..]);
    }
  }

  /** The closure variables of `pollUntilDone`. */
  class PollUntilDone {
    var timer: bool
    var active: bool
    var created: nat
    var outstanding: nat
    var promise: Promise

    ghost function View(): Poll
      reads this
    {
      Poll(timer, active, created, outstanding, promise)
    }

    constructor ()
      ensures View() == START
    {
      timer, active, created, outstanding, promise := false, false, 0, 1, Pending;
    }

    /** The interval calls `poll`, which starts one status call. */
    method OnInterval()
      requires active
      modifies this
      ensures View() == Step(old(View()), Fire)
    {
      outstanding := outstanding + 1;
    }

    method OnAnswer(status: Status)
      requires outstanding > 0
      modifies this
      ensures View() == Step(old(View()), Answer(status))
    {
      outstanding := outstanding - 1;
      match status {
        case Finished =>
          if timer { active := false; }
          if promise.Pending? { promise := Resolved; }
        case Unfinished =>
          if !timer {
            timer, active, created := true, true, created + 1;
          }
        case Failed(error) =>
          if timer { active := false; }
          if promise.Pending? { promise := Rejected(error); }
      }
    }
  }
}
