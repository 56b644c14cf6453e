/** The counters that `readline` of benchmarks/memory.js keeps over the lines it is given, and the
    handler that gives them. */
module MemoryReport {
  import opened Prelude
  import opened InfoText
  import Lines

  /** What a line says: nothing, a heap size, or something that makes the process exit. */
  datatype Reading = Blank | Heap(mem: real) | Unreadable

  datatype Range = Range(lo: real, hi: real, steps: nat)

  datatype Tally = Tally(min: Option<real>, max: Option<real>, cnt: nat, ranges: seq<Range>,
                         iterations: nat, exited: bool)

  const FRESH: Tally := Tally(None, None, 0, [], 0, false)

  function Record(t: Tally, mem: real): Tally {
    var u := if t.min.None? then t.(min := Some(mem), cnt := 0) else t;
    if u.max.None? || mem > u.max.value
    then u.(max := Some(mem), cnt := u.cnt + 1, iterations := u.iterations + 1)
    else u.(ranges := u.ranges + [Range(u.min.value, u.max.value, u.cnt)],
            min := Some(mem), max := Some(mem), cnt := 0, iterations := u.iterations + 1)
  }

  function RecordAll(ms: seq<real>): Tally {
    if ms == [] then FRESH else Record(RecordAll(ms[..|ms| - 1]), ms[|ms| - 1])
  }

  function Read(read: string -> Reading, t: Tally, line: string): Tally {
    if t.exited then t else
    match read(line)
    case Blank => t
    case Unreadable => t.(exited := true)
    case Heap(mem) => Record(t, mem)
  }

  function ReadAll(read: string -> Reading, t: Tally, lines: seq<string>): Tally {
    if lines == [] then t else Read(read, ReadAll(read, t, lines[..|lines| - 1]), lines[|lines| - 1])
  }

  lemma {:induction false} ReadOne(read: string -> Reading, t: Tally, line: string)
    ensures ReadAll(read, t, [line]) == Read(read, t, line)
  {
    assert [line][..0] == [];
  }

  lemma {:induction false} ReadConcat(read: string -> Reading, t: Tally, a: seq<string>, b: seq<string>)
    ensures ReadAll(read, t, a + b) == ReadAll(read, ReadAll(read, t, a), b)
  {
    if b == [] {
      assert a + b == a;
    } else {
      ReadConcat(read, t, a, b[..|b| - 1]);
      assert (a + b)[..|a + b| - 1] == a + b[..|b| - 1];
    }
  }

  lemma {:induction false} ReadNothingMore(read: string -> Reading, t: Tally, lines: seq<string>)
    requires t.exited
    ensures ReadAll(read, t, lines) == t
  {
    if lines != [] { ReadNothingMore(read, t, lines[..|lines| - 1]); }
  }

  // What the counters mean.

  function Values(read: string -> Reading, lines: seq<string>): seq<real> {
    if lines == [] then [] else
      match read(lines[0])
      case Blank => Values(read, lines[1..])
      case Unreadable => []
      case Heap(mem) => [mem] + Values(read, lines[1..])
  }

  predicate Readable(read: string -> Reading, lines: seq<string>) {
    forall i | 0 <= i < |lines| :: !read(lines[i]).Unreadable?
  }

  lemma {:induction false} ValuesSnoc(read: string -> Reading, lines: seq<string>, line: string)
    ensures Values(read, lines + [line])
         == Values(read, lines) + if Readable(read, lines) && read(line).Heap? then [read(line).mem] else []
  {
    var more := lines + [line];
    if lines == [] {
      assert more[1..] == [];
    } else {
      assert more[1..] == lines[1..] + [line] && more[0] == lines[0];
      ValuesSnoc(read, lines[1..], line);
      assert Readable(read, lines) <==> !read(lines[0]).Unreadable? && Readable(read, lines[1..]) by {
        assert lines == [lines[0]] + lines[1..];
      }
    }
  }

  lemma {:induction false} ReadableSnoc(read: string -> Reading, lines: seq<string>, line: string)
    ensures Readable(read, lines + [line]) <==> Readable(read, lines) && !read(line).Unreadable?
  {
    var more := lines + [line];
    assert more[|lines|] == line;
    assert forall i | 0 <= i < |lines| :: more[i] == lines[i];
  }

  lemma {:induction false} RecordSnoc(ms: seq<real>, mem: real)
    ensures RecordAll(ms + [mem]) == Record(RecordAll(ms), mem)
  {
    assert (ms + [mem])[..|ms|] == ms;
  }

  /** The counters depend only on the heap sizes before the first unreadable line. */
  lemma {:induction false} ReadIsRecord(read: string -> Reading, lines: seq<string>)
    ensures ReadAll(read, FRESH, lines)
         == RecordAll(Values(read, lines)).(exited := !Readable(read, lines))
  {
    if lines != [] {
      var less, line := lines[..|lines| - 1], lines[|lines| - 1];
      ReadIsRecord(read, less);
      assert lines == less + [line];
      ValuesSnoc(read, less, line);
      ReadableSnoc(read, less, line);
      var vs := Values(read, less);
      RecordNeverExits(vs);
      assert vs + [] == vs;
      if read(line).Heap? { RecordSnoc(vs, read(line).mem); }
    }
  }

  lemma {:induction false} RecordNeverExits(ms: seq<real>)
    ensures !RecordAll(ms).exited
  {
    if ms != [] { RecordNeverExits(ms[..|ms| - 1]); }
  }

  function Steps(ranges: seq<Range>): nat {
    if ranges == [] then 0 else Steps(ranges[..|ranges| - 1]) + ranges[|ranges| - 1].steps
  }

  /** The recorded steps, the current count and the number of ranges add up to the iterations,
      and these are the heap sizes read. */
  lemma {:induction false} StepsAddUp(ms: seq<real>)
    ensures var t := RecordAll(ms); Steps(t.ranges) + t.cnt + |t.ranges| == t.iterations == |ms|
    ensures RecordAll(ms).min.None? ==> RecordAll(ms) == FRESH
  {
    if ms != [] {
      var t := RecordAll(ms[..|ms| - 1]);
      StepsAddUp(ms[..|ms| - 1]);
      var r := RecordAll(ms).ranges;
      if r != t.ranges { assert r[..|r| - 1] == t.ranges; }
    }
  }

  // The ranges are the ascending runs of the heap sizes.

  type Run = seq<real>

  predicate Ascending(run: Run) {
    |run| > 0 && forall i, j | 0 <= i < j < |run| :: run[i] < run[j]
  }

  predicate Breaks(a: Run, b: Run) { |a| > 0 && |b| > 0 && b[0] <= a[|a| - 1] }

  /** Ascending runs, none of which could go on into the next. */
  ghost predicate MaximalRuns(runs: seq<Run>) {
    && (forall i | 0 <= i < |runs| :: Ascending(runs[i]))
    && (forall i, j | 0 <= i < |runs| && 0 <= j < |runs| && j == i + 1 :: Breaks(runs[i], runs[j]))
  }

  function Together(runs: seq<Run>): seq<real> {
    if runs == [] then [] else Together(runs[..|runs| - 1]) + runs[|runs| - 1]
  }

  /** The steps of a run are counted from its second heap size on; only the very first heap size
      of all is a step too. */
  function RangeOf(run: Run, first: bool): Range
    requires |run| > 0
  {
    Range(run[0], run[|run| - 1], if first then |run| else |run| - 1)
  }

  /** Each finished run is one range, and the last run is the current one. */
  predicate Describes(t: Tally, runs: seq<Run>) {
    var k := |runs| - 1;
    if runs == [] then t.min.None? && t.max.None? && t.ranges == [] else
    && (forall i | 0 <= i < |runs| :: |runs[i]| > 0)
    && t.min.Some? && t.max.Some? && RangeOf(runs[k], k == 0) == Range(t.min.value, t.max.value, t.cnt)
    && |t.ranges| == k
    && forall i | 0 <= i < k :: t.ranges[i] == RangeOf(runs[i], i == 0)
  }

  function Longer(runs: seq<Run>, mem: real): seq<Run>
    requires runs != []
  {
    runs[..|runs| - 1] + [runs[|runs| - 1] + [mem]]
  }

  lemma {:induction false} LongerTogether(runs: seq<Run>, mem: real)
    requires runs != []
    ensures Together(Longer(runs, mem)) == Together(runs) + [mem]
  {
    var k := |runs| - 1;
    assert Longer(runs, mem)[..k] == runs[..k];
    assert Together(runs[..k]) + (runs[k] + [mem]) == Together(runs[..k]) + runs[k] + [mem];
  }

  lemma {:induction false} NewTogether(runs: seq<Run>, mem: real)
    ensures Together(runs + [[mem]]) == Together(runs) + [mem]
  {
    assert (runs + [[mem]])[..|runs|] == runs;
  }

  lemma {:induction false} LongerRun(t: Tally, runs: seq<Run>, mem: real)
    requires Describes(t, runs) && runs != [] && mem > t.max.value
    ensures Describes(Record(t, mem), Longer(runs, mem))
    ensures MaximalRuns(runs) ==> MaximalRuns(Longer(runs, mem))
  {
    LongerDescribed(t, runs, mem);
    if MaximalRuns(runs) { LongerMaximal(runs, mem); }
  }

  lemma {:induction false} LongerDescribed(t: Tally, runs: seq<Run>, mem: real)
    requires Describes(t, runs) && runs != [] && mem > t.max.value
    ensures Describes(Record(t, mem), Longer(runs, mem))
  {
    var more, k := Longer(runs, mem), |runs| - 1;
    assert forall i | 0 <= i < k :: more[i] == runs[i];
    assert more[k] == runs[k] + [mem];
  }

  lemma {:induction false} LongerMaximal(runs: seq<Run>, mem: real)
    requires MaximalRuns(runs) && runs != [] && mem > runs[|runs| - 1][|runs[|runs| - 1]| - 1]
    ensures MaximalRuns(Longer(runs, mem))
  {
    var more, k := Longer(runs, mem), |runs| - 1;
    assert forall i | 0 <= i < k :: more[i] == runs[i];
    assert Ascending(more[k]);
    if k > 0 { assert Breaks(runs[k - 1], runs[k]); }
  }

  lemma {:induction false} NewRun(t: Tally, runs: seq<Run>, mem: real)
    requires Describes(t, runs) && (runs != [] ==> mem <= t.max.value)
    ensures Describes(Record(t, mem), runs + [[mem]])
    ensures MaximalRuns(runs) ==> MaximalRuns(runs + [[mem]])
  {
  }

  function Cut(runs: seq<Run>, mem: real): seq<Run> {
    var k := |runs| - 1;
    if runs != [] && runs[k] != [] && runs[k][|runs[k]| - 1] < mem then Longer(runs, mem) else runs + [[mem]]
  }

  function RunsOf(ms: seq<real>): seq<Run> {
    if ms == [] then [] else Cut(RunsOf(ms[..|ms| - 1]), ms[|ms| - 1])
  }

  lemma {:induction false} RunsSnoc(ms: seq<real>, mem: real)
    ensures RunsOf(ms + [mem]) == Cut(RunsOf(ms), mem)
  {
    assert (ms + [mem])[..|ms|] == ms;
  }

  lemma {:induction false} LessAndLast<T>(s: seq<T>)
    requires s != []
    ensures s[..|s| - 1] + [s[|s| - 1]] == s
  {
  }

  /** The counters describe the maximal ascending runs of the heap sizes. */
  lemma {:induction false} RangesAreRuns(ms: seq<real>)
    ensures MaximalRuns(RunsOf(ms)) && Together(RunsOf(ms)) == ms && Describes(RecordAll(ms), RunsOf(ms))
  {
    if ms != [] {
      var less, mem := ms[..|ms| - 1], ms[|ms| - 1];
      RangesAreRuns(less);
      OneMoreRecord(RecordAll(less), RunsOf(less), mem);
      LessAndLast(ms);
    }
  }

  lemma {:induction false} OneMoreRecord(t: Tally, runs: seq<Run>, mem: real)
    requires MaximalRuns(runs) && Describes(t, runs)
    ensures MaximalRuns(Cut(runs, mem)) && Describes(Record(t, mem), Cut(runs, mem))
    ensures Together(Cut(runs, mem)) == Together(runs) + [mem]
  {
    if runs != [] && t.max.value < mem {
      LongerRun(t, runs, mem);
      LongerTogether(runs, mem);
    } else {
      NewRun(t, runs, mem);
      NewTogether(runs, mem);
    }
  }

  /** There is only one way to cut heap sizes into maximal ascending runs. */
  lemma {:induction false} RunsUnique(runs: seq<Run>)
    requires MaximalRuns(runs)
    ensures RunsOf(Together(runs)) == runs
    decreases |Together(runs)|
  {
    if runs != [] {
      var less, mem := Uncut(runs);
      RunsUnique(less);
      RunsSnoc(Together(less), mem);
    }
  }

  lemma {:induction false} Uncut(runs: seq<Run>) returns (less: seq<Run>, mem: real)
    requires MaximalRuns(runs) && runs != []
    ensures MaximalRuns(less) && Cut(less, mem) == runs && Together(runs) == Together(less) + [mem]
  {
    var last := runs[|runs| - 1];
    mem := last[|last| - 1];
    if |last| == 1 {
      less := runs[..|runs| - 1];
      UncutNew(runs, mem);
    } else {
      less := runs[..|runs| - 1] + [last[..|last| - 1]];
      UncutLonger(runs, less, mem);
    }
  }

  lemma {:induction false} UncutNew(runs: seq<Run>, mem: real)
    requires MaximalRuns(runs) && runs != [] && runs[|runs| - 1] == [mem]
    ensures var less := runs[..|runs| - 1];
      MaximalRuns(less) && Cut(less, mem) == runs && Together(runs) == Together(less) + [mem]
  {
    var k := |runs| - 1;
    assert runs == runs[..k] + [[mem]];
    if k > 0 { assert Breaks(runs[k - 1], runs[k]); }
    NewTogether(runs[..k], mem);
  }

  lemma {:induction false} UncutLonger(runs: seq<Run>, less: seq<Run>, mem: real)
    requires MaximalRuns(runs) && runs != [] && |runs[|runs| - 1]| > 1
    requires var last := runs[|runs| - 1];
      mem == last[|last| - 1] && less == runs[..|runs| - 1] + [last[..|last| - 1]]
    ensures MaximalRuns(less) && Cut(less, mem) == runs && Together(runs) == Together(less) + [mem]
  {
    Shorter(runs, less);
    LongerBack(runs, less, mem);
    LongerTogether(less, mem);
    var shorter := less[|less| - 1];
    assert Ascending(runs[|runs| - 1]) && shorter[|shorter| - 1] < mem;
  }

  lemma {:induction false} LongerBack(runs: seq<Run>, less: seq<Run>, mem: real)
    requires runs != [] && |runs[|runs| - 1]| > 1
    requires var last := runs[|runs| - 1];
      mem == last[|last| - 1] && less == runs[..|runs| - 1] + [last[..|last| - 1]]
    ensures less != [] && Longer(less, mem) == runs
  {
    var k := |runs| - 1;
    LessAndLast(runs[k]);
    LessAndLast(runs);
    assert less[..k] == runs[..k];
  }

  lemma {:induction false} Shorter(runs: seq<Run>, less: seq<Run>)
    requires MaximalRuns(runs) && runs != [] && |runs[|runs| - 1]| > 1
    requires less == runs[..|runs| - 1] + [runs[|runs| - 1][..|runs[|runs| - 1]| - 1]]
    ensures MaximalRuns(less)
  {
  }

  // The handler.

  /** `chunk.indexOf('\n', i)`. */
  function IndexOfNewline(chunk: string, i: nat): (j: int)
    requires i <= |chunk|
    ensures j == -1 || i <= j < |chunk|
    ensures j == -1 ==> '\n' !in chunk[i..]
    ensures j != -1 ==> chunk[j] == '\n' && '\n' !in chunk[i..j]
    decreases |chunk| - i
  {
    if i == |chunk| then -1 else if chunk[i] == '\n' then i else
      assert chunk[i..] == [chunk[i]] + chunk[i + 1..];
      var j := IndexOfNewline(chunk, i + 1);
      assert j != -1 ==> chunk[i..j] == [chunk[i]] + chunk[i + 1..j];
      j
  }

  lemma {:induction false} FeedLine(pending: string, p: string, rest: string)
    requires '\n' !in p
    ensures Lines.Feed(pending, p + ['\n'] + rest)
         == ([pending + p] + Lines.Feed([], rest).0, Lines.Feed([], rest).1)
  {
    var ps, qs := Split(p + ['\n'] + rest, '\n'), Split(rest, '\n');
    SplitFirst(p, rest, '\n');
    Lines.NewlineSplits(rest);
    assert ps[1..|ps| - 1] == qs[..|qs| - 1];
    assert [] + qs[0] == qs[0];
    if |qs| > 1 { assert qs[..|qs| - 1] == [qs[0]] + qs[1..|qs| - 1]; }
  }

  lemma {:induction false} FeedEnd(pending: string, s: string)
    requires '\n' !in s
    ensures Lines.Feed(pending, s).0 == [] && Lines.Feed(pending, s).1 == if s == [] then pending else s
  {
    SplitFree(s, '\n');
  }

  lemma {:induction false} ReadFirst(read: string -> Reading, t: Tally, line: string, rest: seq<string>)
    ensures ReadAll(read, t, [line] + rest) == ReadAll(read, Read(read, t, line), rest)
  {
    ReadConcat(read, t, [line], rest);
    ReadOne(read, t, line);
  }

  /** One line of a chunk. */
  lemma {:induction false} NextLine(
    read: string -> Reading, t: Tally, got: seq<string>, pending: string, chunk: string, i: nat, j: nat)
    requires i <= j < |chunk| && chunk[j] == '\n' && '\n' !in chunk[i..j]
    ensures var now, later := Lines.Feed(pending, chunk[i..]), Lines.Feed([], chunk[j + 1..]);
      var line := pending + chunk[i..j];
      && ReadAll(read, t, now.0) == ReadAll(read, Read(read, t, line), later.0)
      && got + now.0 == got + [line] + later.0 && now.1 == later.1
  {
    var later, line := Lines.Feed([], chunk[j + 1..]), pending + chunk[i..j];
    assert chunk[i..] == chunk[i..j] + ['\n'] + chunk[j + 1..];
    FeedLine(pending, chunk[i..j], chunk[j + 1..]);
    ReadFirst(read, t, line, later.0);
    Regroup(got, [line], later.0);
  }

  class Report {
    const read: string -> Reading
    var lastLine: Option<string>
    var memMin: Option<real>
    var memMax: Option<real>
    var memCnt: nat
    var memRanges: seq<Range>
    var iterations: nat
    var exited: bool
    /** The lines that `ReadLine` was called with. */
    ghost var received: seq<string>

    constructor (read: string -> Reading)
      ensures this.read == read && Counters() == FRESH && Pending() == [] && received == []
    {
      this.read := read;
      lastLine, memMin, memMax := None, None, None;
      memCnt, memRanges, iterations, exited := 0, [], 0, false;
      received := [];
    }

    ghost function Counters(): Tally
      reads this
    {
      Tally(memMin, memMax, memCnt, memRanges, iterations, exited)
    }

    ghost function Pending(): string
      reads this
    {
      if lastLine.Some? then lastLine.value else []
    }

    method ReadLine(line: string)
      requires !exited
      modifies this
      ensures Counters() == Read(read, old(Counters()), line)
      ensures lastLine == old(lastLine) && received == old(received) + [line]
    {
      received := received + [line];
      match read(line)
      case Blank =>
      case Unreadable => exited := true;
      case Heap(mem) =>
        if memMin.None? {
          memMin := Some(mem);
          memCnt := 0;
        }
        if memMax.None? || mem > memMax.value {
          memMax := Some(mem);
          memCnt := memCnt + 1;
        } else {
          memRanges := memRanges + [Range(memMin.value, memMax.value, memCnt)];
          memMin, memMax, memCnt := Some(mem), Some(mem), 0;
        }
        iterations := iterations + 1;
    }

    /** The end of a line: the partial line, if there is one, comes before it. */
    method HandOver(piece: string)
      requires !exited
      modifies this
      ensures Counters() == Read(read, old(Counters()), old(Pending()) + piece)
      ensures Pending() == [] && received == old(received) + [old(Pending()) + piece]
    {
      if lastLine.Some? && lastLine.value != [] {
        ReadLine(lastLine.value + piece);
        lastLine := None;
      } else {
        assert [] + piece == piece;
        ReadLine(piece);
      }
    }

    /** The listener for data on the standard input. */
    method OnChunk(chunk: string)
      requires !exited
      modifies this
      ensures Counters() == ReadAll(read, old(Counters()), Lines.Feed(old(Pending()), chunk).0)
      ensures !exited ==>
        && Pending() == Lines.Feed(old(Pending()), chunk).1
        && received == old(received) + Lines.Feed(old(Pending()), chunk).0
    {
      ghost var t, got, goal := Counters(), received, Lines.Feed(Pending(), chunk);
      var i := 0;
      var j := IndexOfNewline(chunk, i);
      assert chunk[0..] == chunk;
      while j != -1
        invariant i <= |chunk| && (j == -1 || i <= j < |chunk|) && !exited
        invariant if j == -1 then '\n' !in chunk[i..] else chunk[j] == '\n' && '\n' !in chunk[i..j]
        invariant Ahead(t, got, goal, chunk[i..])
        decreases |chunk| - i
      {
        OnLine(chunk, i, j, t, got, goal);
        i := j + 1;
        if exited { return; }
        j := IndexOfNewline(chunk, i);
      }
      FeedEnd(Pending(), chunk[i..]);
      if |chunk| > i { lastLine := Some(chunk[i..]); }
    }

    /** What is still to be read leads to the goal. */
    ghost predicate Ahead(t: Tally, got: seq<string>, goal: (seq<string>, string), rest: string)
      reads this
    {
      var now := Lines.Feed(Pending(), rest);
      && ReadAll(read, Counters(), now.0) == ReadAll(read, t, goal.0)
      && received + now.0 == got + goal.0 && now.1 == goal.1
    }

    method OnLine(chunk: string, i: nat, j: nat, ghost t: Tally, ghost got: seq<string>,
                  ghost goal: (seq<string>, string))
      requires i <= j < |chunk| && chunk[j] == '\n' && '\n' !in chunk[i..j]
      requires !exited && Ahead(t, got, goal, chunk[i..])
      modifies this
      ensures exited ==> Counters() == ReadAll(read, t, goal.0)
      ensures !exited ==> Ahead(t, got, goal, chunk[j + 1..])
    {
      NextLine(read, Counters(), received, Pending(), chunk, i, j);
      HandOver(chunk[i..j]);
      if exited { ReadNothingMore(read, Counters(), Lines.Feed([], chunk[j + 1..]).0); }
    }
  }

  /** A whole run: the counters are those of the reassembled lines. */
  method ReadInput(read: string -> Reading, chunks: seq<string>) returns (report: Report)
    ensures report.Counters() == ReadAll(read, FRESH, Lines.FeedAll(chunks).0)
    ensures !report.exited ==> report.received == Lines.FeedAll(chunks).0 && report.Pending() == Lines.FeedAll(chunks).1
  {
    report := new Report(read);
    var i := 0;
    while i < |chunks| && !report.exited
      invariant 0 <= i <= |chunks| && fresh(report) && report.read == read
      invariant report.Counters() == ReadAll(read, FRESH, Lines.FeedAll(chunks[..i]).0)
      invariant !report.exited ==>
        report.received == Lines.FeedAll(chunks[..i]).0 && report.Pending() == Lines.FeedAll(chunks[..i]).1
    {
      assert chunks[..i + 1] == chunks[..i] + [chunks[i]];
      OneMoreChunk(read, chunks[..i], chunks[i]);
      report.OnChunk(chunks[i]);
      i := i + 1;
    }
    assert chunks[..|chunks|] == chunks;
    if report.exited { LaterLines(read, chunks, i); }
  }

  lemma {:induction false} LaterLines(read: string -> Reading, chunks: seq<string>, i: nat)
    requires i <= |chunks| && ReadAll(read, FRESH, Lines.FeedAll(chunks[..i]).0).exited
    ensures ReadAll(read, FRESH, Lines.FeedAll(chunks).0) == ReadAll(read, FRESH, Lines.FeedAll(chunks[..i]).0)
    decreases |chunks|
  {
    if i == |chunks| {
      assert chunks[..i] == chunks;
    } else {
      var less, chunk := chunks[..|chunks| - 1], chunks[|chunks| - 1];
      assert less[..i] == chunks[..i] && chunks == less + [chunk];
      LaterLines(read, less, i);
      OneMoreChunk(read, less, chunk);
    }
  }

  lemma {:induction false} OneMoreChunk(read: string -> Reading, chunks: seq<string>, chunk: string)
    ensures var before, after := Lines.FeedAll(chunks), Lines.FeedAll(chunks + [chunk]);
      && after == (before.0 + Lines.Feed(before.1, chunk).0, Lines.Feed(before.1, chunk).1)
      && var t := ReadAll(read, FRESH, before.0);
         && ReadAll(read, FRESH, after.0) == ReadAll(read, t, Lines.Feed(before.1, chunk).0)
         && (t.exited ==> ReadAll(read, FRESH, after.0) == t)
  {
    var before := Lines.FeedAll(chunks);
    assert (chunks + [chunk])[..|chunks|] == chunks;
    ReadConcat(read, FRESH, before.0, Lines.Feed(before.1, chunk).0);
    if ReadAll(read, FRESH, before.0).exited {
      ReadNothingMore(read, ReadAll(read, FRESH, before.0), Lines.Feed(before.1, chunk).0);
    }
  }
}
