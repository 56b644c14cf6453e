/** Paged queries and scans: lib/query.js, lib/scan.js and lib/commands/stream_command.js. */
module Paging {
  import opened Prelude

  /** One call of the native side to the stream command: an error, the bins of a record, or
      neither, and then the meta data is the state to go on from (if any). */
  datatype Call<R, S> = Call(error: Option<int>, bins: Option<R>, meta: Option<S>)

  /** What the stream emits. */
  datatype Report<R, S> = Data(record: R) | End(state: Option<S>) | Error(code: int)

  /** `convertResult` and `callback`: without bins, what is converted has a state. */
  function Emitted<R, S>(c: Call<R, S>): Report<R, S> {
    if c.error.Some? then Error(c.error.value)
    else if c.bins.None? then End(c.meta)
    else Data(c.bins.value)
  }

  /** An error comes first, whatever else there is; bins make a record, whatever the meta data. */
  lemma {:induction false} EmittedExact<R, S>(code: int, bins: Option<R>, meta: Option<S>, record: R)
    ensures Emitted(Call(Some(code), bins, meta)) == Error(code)
    ensures Emitted(Call(None, Some(record), meta)) == Data(record)
    ensures Emitted<R, S>(Call(None, None, meta)) == End(meta)
  {
  }

  /** What the promise of `results` comes to. */
  datatype Promise<R> = Pending | Resolved(records: seq<R>) | Rejected(code: int)

  /** A page as the contract has it: its records, then its end. */
  datatype Page<R, S> = Page(records: seq<R>, next: Option<S>)

  /** A server answers with a whole page, or fails after some records. */
  datatype Answer<R, S> = Whole(page: Page<R, S>) | Failing(records: seq<R>, code: int)

  function Records<R, S>(a: Answer<R, S>): seq<R> { if a.Whole? then a.page.records else a.records }

  function LastCall<R, S>(a: Answer<R, S>): Call<R, S> {
    if a.Whole? then Call(None, None, a.page.next) else Call(Some(a.code), None, None)
  }

  function Calls<R, S>(a: Answer<R, S>): seq<Call<R, S>> {
    seq(|Records(a)|, i requires 0 <= i < |Records(a)| => Call(None, Some(Records(a)[i]), None)) + [LastCall(a)]
  }

  predicate Ends<R, S>(r: Report<R, S>) { !r.Data? }

  /** A query or scan: its state decides whether there is a next page. */
  class Query<R, S> {
    var queryState: Option<S>

    constructor ()
      ensures queryState == None
    {
      queryState := None;
    }

    method NextPage(state: Option<S>)
      modifies this
      ensures queryState == state
    {
      queryState := state;
    }

    method HasNextPage() returns (b: bool)
      ensures b == queryState.Some?
    {
      b := queryState.Some?;
    }

    /** `results`: collects the records until the end or an error. On an error the promise is
        rejected and the state is left as it was. */
    method Results(calls: seq<Call<R, S>>) returns (promise: Promise<R>)
      modifies this
      ensures forall n | 0 <= n < |calls| && Ends(Emitted(calls[n]))
                         && (forall k | 0 <= k < n :: Emitted(calls[k]).Data?) ::
        match Emitted(calls[n])
        case End(state) => queryState == state && promise.Resolved? && |promise.records| == n
                           && forall k | 0 <= k < n :: Data(promise.records[k]) == Emitted(calls[k])
        case Error(code) => queryState == old(queryState) && promise == Rejected(code)
      ensures (forall k | 0 <= k < |calls| :: Emitted(calls[k]).Data?) ==>
        promise == Pending && queryState == old(queryState)
    {
      var results: seq<R> := [];
      var i := 0;
      while i < |calls| && Emitted(calls[i]).Data?
        invariant 0 <= i <= |calls| && |results| == i
        invariant forall k | 0 <= k < i :: Emitted(calls[k]) == Data(results[k])
      {
        results := results + [Emitted(calls[i]).record];
        i := i + 1;
      }
      if i == |calls| { return Pending; }
      if Emitted(calls[i]).Error? { return Rejected(Emitted(calls[i]).code); }
      queryState := Emitted(calls[i]).state;
      return Resolved(results);
    }
  }

  // The contract of the native side.

  /** A server answers a state, and the number of the attempt, with a page or a failure. */
  type Server<!R, !S> = (Option<S>, nat) -> Answer<R, S>

  /** It serves `all` if some position in `all` belongs to each state such that every whole page is
      the next run of records, at most `max` of them when `max` is positive, and a page with a next
      state is not empty. */
  ghost predicate Serves<R, S(!new)>(server: Server<R, S>, all: seq<R>, pos: Option<S> -> nat, max: nat) {
    && pos(None) == 0
    && (forall st, n: nat :: pos(st) <= |all| && server(st, n).Whole? ==>
          PageOk(server(st, n).page, all, pos(st), pos, max))
  }

  ghost predicate PageOk<R, S>(p: Page<R, S>, all: seq<R>, at: nat, pos: Option<S> -> nat, max: nat) {
    var to := at + |p.records|;
    && to <= |all| && p.records == all[at..to] && (max > 0 ==> |p.records| <= max)
    && (if p.next.Some? then p.records != [] && pos(p.next) == to else to == |all|)
  }

  lemma {:induction false} CallsEmit<R, S>(a: Answer<R, S>)
    ensures var cs := Calls(a); var n := |Records(a)|;
      && |cs| == n + 1 && Emitted(cs[n]) == (if a.Whole? then End(a.page.next) else Error(a.code))
      && forall k | 0 <= k < n :: Emitted(cs[k]) == Data(Records(a)[k])
  {
  }

  /** One call of `results`: a whole page is returned and the query goes on from its state; after
      a failure the query can be tried again from where it was. */
  method FetchPage<R, S>(query: Query<R, S>, server: Server<R, S>, attempt: nat) returns (promise: Promise<R>)
    modifies query
    ensures match server(old(query.queryState), attempt)
            case Whole(page) => promise == Resolved(page.records) && query.queryState == page.next
            case Failing(_, code) => promise == Rejected(code) && query.queryState == old(query.queryState)
  {
    var answer := server(query.queryState, attempt);
    CallsEmit(answer);
    promise := query.Results(Calls(answer));
    assert Ends(Emitted(Calls(answer)[|Records(answer)|]));
  }

  /** Paging completeness: calling `results`, again after each failure, until it has succeeded and
      `hasNextPage` is false, returns every record from the position of the query on, exactly once
      and in order. At most one call more succeeds than there are records, and at least as many as
      full pages would take; it ends if only finitely many calls fail. */
  method FetchRest<R, S(!new)>(query: Query<R, S>, server: Server<R, S>, ghost all: seq<R>,
                               ghost pos: Option<S> -> nat, ghost max: nat, ghost lastFailure: nat)
    returns (records: seq<R>, calls: nat, failures: nat)
    requires Serves(server, all, pos, max) && pos(query.queryState) <= |all|
    requires forall st, n: nat :: n >= lastFailure ==> server(st, n).Whole?
    modifies query
    ensures records == all[pos(old(query.queryState))..] && query.queryState == None && failures <= lastFailure
    ensures 1 <= calls - failures <= |records| + 1 && (max > 0 ==> (calls - failures) * max >= |records|)
  {
    ghost var rest := all[pos(query.queryState)..];
    ghost var from := pos(query.queryState);
    records, calls, failures := [], 0, 0;
    var more := true;
    while more
      invariant more ==> pos(query.queryState) == from + |records| && calls - failures <= |records|
      invariant from <= |all| && rest == all[from..] && records <= rest
      invariant 0 <= failures <= calls && failures <= lastFailure
      invariant calls - failures <= |rest| + 1 && (max > 0 ==> (calls - failures) * max >= |records|)
      invariant !more ==> records == rest && query.queryState == None && calls > failures
      decreases more, |rest| - |records|, if calls < lastFailure then lastFailure - calls else 0
    {
      ghost var before, st, answer := records, query.queryState, server(query.queryState, calls);
      var promise := FetchPage(query, server, calls);
      if promise.Resolved? {
        records := records + promise.records;
        Extend(all, from, before, answer.page.records);
        Times(calls - failures, max);
        more := query.HasNextPage();
      } else {
        failures := failures + 1;
      }
      calls := calls + 1;
    }
  }

  lemma Times(n: nat, m: nat)
    ensures (n + 1) * m == n * m + m
  {
  }

  lemma {:induction false} Extend<T>(all: seq<T>, from: nat, before: seq<T>, page: seq<T>)
    requires from <= |all| && before <= all[from..] && from + |before| + |page| <= |all|
    requires page == all[from + |before|..from + |before| + |page|]
    ensures before + page <= all[from..]
    ensures from + |before| + |page| == |all| ==> before + page == all[from..]
  {
    assert before + page == all[from..][..|before| + |page|];
  }

  /** A new query returns everything. */
  method FetchAll<R, S(!new)>(server: Server<R, S>, ghost all: seq<R>, ghost pos: Option<S> -> nat, ghost max: nat,
                              ghost lastFailure: nat) returns (records: seq<R>, calls: nat, failures: nat)
    requires Serves(server, all, pos, max) && forall st, n: nat :: n >= lastFailure ==> server(st, n).Whole?
    ensures records == all && failures <= lastFailure
    ensures 1 <= calls - failures <= |all| + 1 && (max > 0 ==> (calls - failures) * max >= |all|)
  {
    var query := new Query<R, S>();
    records, calls, failures := FetchRest(query, server, all, pos, max, lastFailure);
    assert all[0..] == all;
  }

  /** A query that is given a saved state with `nextPage` returns what is left from there. */
  method Resume<R, S(!new)>(state: Option<S>, server: Server<R, S>, ghost all: seq<R>, ghost pos: Option<S> -> nat,
                            ghost max: nat, ghost lastFailure: nat) returns (records: seq<R>)
    requires Serves(server, all, pos, max) && pos(state) <= |all|
    requires forall st, n: nat :: n >= lastFailure ==> server(st, n).Whole?
    ensures records == all[pos(state)..]
  {
    var query := new Query<R, S>();
    query.NextPage(state);
    var calls, failures;
    records, calls, failures := FetchRest(query, server, all, pos, max, lastFailure);
  }

  // Any number of failures.

  /** Where a query is: the records so far, its state, the calls that succeeded, and whether it is
      complete. */
  datatype Paged<R, S> = Paged(records: seq<R>, at: Option<S>, pages: nat, done: bool)

  function After<R, S>(server: Server<R, S>, st: Option<S>, n: nat): Paged<R, S> {
    if n == 0 then Paged([], st, 0, false) else
      var q := After(server, st, n - 1);
      if q.done then q else
      match server(q.at, n - 1)
      case Whole(p) => Paged(q.records + p.records, p.next, q.pages + 1, p.next.None?)
      case Failing(_, _) => q
  }

  /** Whichever calls fail: after any number of attempts the records are a run of all records up to
      the position of the state; the query is complete only with all of them, and is complete once
      more calls have succeeded than there were records left. */
  lemma {:induction false} PagesArePrefixes<R, S(!new)>(server: Server<R, S>, all: seq<R>, pos: Option<S> -> nat,
                                                        max: nat, st: Option<S>, n: nat)
    requires Serves(server, all, pos, max) && pos(st) <= |all|
    ensures var q := After(server, st, n); var rest := all[pos(st)..];
      && q.records <= rest
      && (if q.done then q.records == rest else pos(q.at) == pos(st) + |q.records| && q.pages <= |q.records|)
      && (q.pages > |rest| ==> q.done)
  {
    if n > 0 {
      PagesArePrefixes(server, all, pos, max, st, n - 1);
      var q := After(server, st, n - 1);
      if !q.done && server(q.at, n - 1).Whole? {
        var p := server(q.at, n - 1).page;
        assert PageOk(p, all, pos(q.at), pos, max);
        Extend(all, pos(st), q.records, p.records);
      }
    }
  }

  /** If a page with a next state may be empty, there need not be an end: a server that answers a
      state with that same state and no records is asked for ever. */
  lemma {:induction false} NoProgress<R, S>(server: Server<R, S>, st: Option<S>, n: nat)
    requires st.Some? && forall k: nat :: server(st, k) == Whole(Page([], st))
    ensures After(server, st, n) == Paged([], st, n, false)
  {
    if n > 0 {
      NoProgress(server, st, n - 1);
      var none: seq<R> := [];
      assert none + none == none;
    }
  }
}
