/** Waiting for a secondary index: lib/index_job.js on top of the polling of lib/job.js and the
    parser of lib/info.js. */
module IndexJob {
  import opened Prelude
  import opened InfoText
  import R = InfoRoundTrip
  import J = JobPoll

  /** What asking every node comes to: a text from each node, the error that there is no such
      index, or another error. */
  datatype Reply = Texts(texts: seq<string>) | IndexNotFound | OtherError(code: int)

  const PARSE_FAILED := -1

  /** JavaScript's notion of a false value: undefined, the empty string and the number zero
      (and not-a-number). */
  predicate Truthy(v: Value) {
    match v
    case Undefined => false
    case Text(s) => s != []
    case Num(t) => t != "0" && t != "NaN"
    case _ => true
  }

  function LoadPct(v: Value): Value {
    if v.Obj? && "load_pct" in v.fields then v.fields["load_pct"] else Undefined
  }

  /** The entry for the index in one node's answer; an entry that is missing counts as 0. */
  function Entry(m: map<string, Value>, key: string): Value {
    if key in m && Truthy(m[key]) then m[key] else Obj(map["load_pct" := Num("0")])
  }

  predicate NodeDone(num: Numeric, seps: string -> seq<Sep>, key: string, text: string) {
    Parse(num, text, seps).Done? && LoadPct(Entry(Parse(num, text, seps).value, key)) == Num("100")
  }

  /** `info` and `hasCompleted`: the answer of one status call. */
  function StatusOf(num: Numeric, seps: string -> seq<Sep>, key: string, r: Reply): J.Status {
    match r
    case IndexNotFound => J.Unfinished
    case OtherError(code) => J.Failed(code)
    case Texts(texts) =>
      if exists i | 0 <= i < |texts| :: Parse(num, texts[i], seps).TypeErr? then J.Failed(PARSE_FAILED)
      else if texts != [] && forall i | 0 <= i < |texts| :: NodeDone(num, seps, key, texts[i]) then J.Finished
      else J.Unfinished
  }

  datatype Event = Fire | Answer(reply: Reply)

  function ToPoll(num: Numeric, seps: string -> seq<Sep>, key: string, es: seq<Event>): seq<J.Event> {
    seq(|es|, i requires 0 <= i < |es| =>
      if es[i].Fire? then J.Fire else J.Answer(StatusOf(num, seps, key, es[i].reply)))
  }

  /** A resolved verdict comes from a finished answer before which no answer was terminal. */
  lemma {:induction false} VerdictFrom(es: seq<J.Event>) returns (i: nat)
    requires J.Verdict(es) == J.Resolved
    ensures i < |es| && es[i] == J.Answer(J.Finished) && forall j | 0 <= j < i :: !J.Terminal(es[j])
    decreases |es|
  {
    if J.Terminal(es[0]) {
      i := 0;
    } else {
      var k := VerdictFrom(es[1..]);
      i := k + 1;
      assert forall j | 0 < j < i :: es[j] == es[1..][j - 1];
    }
  }

  /** A node counts as done exactly if its text parses to an object that has an entry for the index,
      and that entry is an object whose load_pct is the number 100: a node without an entry never
      does. */
  lemma {:induction false} NodeDoneExact(num: Numeric, seps: string -> seq<Sep>, key: string, text: string)
    ensures NodeDone(num, seps, key, text) <==> Reports100(Parse(num, text, seps), key)
  {
  }

  /** The text of one node says that the index is complete. */
  predicate Reports100(parsed: Result<map<string, Value>>, key: string) {
    && parsed.Done? && key in parsed.value
    && match parsed.value[key]
       case Obj(fields) => "load_pct" in fields && fields["load_pct"] == Num("100")
       case _ => false
  }

  /** An answer after which polling goes on: the index is not found, or all texts parse but there is
      none of them or one of them does not say that the index is complete. */
  predicate GoesOn(num: Numeric, seps: string -> seq<Sep>, key: string, r: Reply) {
    match r
    case IndexNotFound => true
    case OtherError(_) => false
    case Texts(texts) =>
      && (forall i | 0 <= i < |texts| :: Parse(num, texts[i], seps).Done?)
      && (texts == [] || exists i :: 0 <= i < |texts| && !Reports100(Parse(num, texts[i], seps), key))
  }

  /** What one answer comes to. */
  lemma {:induction false} StatusExact(num: Numeric, seps: string -> seq<Sep>, key: string, r: Reply)
    ensures StatusOf(num, seps, key, r) ==
      if GoesOn(num, seps, key, r) then J.Unfinished
      else if r.OtherError? then J.Failed(r.code)
      else if r.Texts? && exists i :: 0 <= i < |r.texts| && Parse(num, r.texts[i], seps).TypeErr?
      then J.Failed(PARSE_FAILED)
      else J.Finished
    ensures StatusOf(num, seps, key, r) == J.Finished <==>
      r.Texts? && r.texts != [] && forall i | 0 <= i < |r.texts| :: Reports100(Parse(num, r.texts[i], seps), key)
  {
    if r.Texts? {
      forall i | 0 <= i < |r.texts|
        ensures NodeDone(num, seps, key, r.texts[i]) <==> Reports100(Parse(num, r.texts[i], seps), key)
      {
        NodeDoneExact(num, seps, key, r.texts[i]);
      }
    }
  }

  /** Index wait soundness: whatever the interleaving of polls and answers, `wait` resolves only
      if some poll was answered by at least one node and every node's text parses to an object whose
      entry for the index has the load percentage 100; after every answer before it polling went on. */
  lemma {:induction false} WaitSound(num: Numeric, seps: string -> seq<Sep>, key: string, es: seq<Event>)
    requires J.IsRun(J.START, ToPoll(num, seps, key, es))
    requires J.Final(J.START, ToPoll(num, seps, key, es)).promise == J.Resolved
    ensures exists i | 0 <= i < |es| ::
      && es[i].Answer? && es[i].reply.Texts? && es[i].reply.texts != []
      && (forall n | 0 <= n < |es[i].reply.texts| :: Reports100(Parse(num, es[i].reply.texts[n], seps), key))
      && (forall j | 0 <= j < i && es[j].Answer? :: GoesOn(num, seps, key, es[j].reply))
  {
    var ps := ToPoll(num, seps, key, es);
    J.PollSafety(J.START, ps);
    var i := VerdictFrom(ps);
    StatusExact(num, seps, key, es[i].reply);
    forall j | 0 <= j < i && es[j].Answer? ensures GoesOn(num, seps, key, es[j].reply) {
      StatusExact(num, seps, key, es[j].reply);
      assert !J.Terminal(ps[j]);
    }
  }

  /** Index wait, exactly: as long as polling goes on after every answer the promise is pending;
      the first other answer decides: an error of its own or a text that does not parse rejects it,
      and otherwise it is resolved. */
  lemma {:induction false} WaitExact(num: Numeric, seps: string -> seq<Sep>, key: string, es: seq<Event>, i: nat)
    requires J.IsRun(J.START, ToPoll(num, seps, key, es)) && i <= |es|
    requires forall j | 0 <= j < i && es[j].Answer? :: GoesOn(num, seps, key, es[j].reply)
    requires i < |es| ==> es[i].Answer? && !GoesOn(num, seps, key, es[i].reply)
    ensures J.Final(J.START, ToPoll(num, seps, key, es)).promise ==
      if i == |es| then J.Pending
      else match es[i].reply
           case OtherError(code) => J.Rejected(code)
           case Texts(texts) =>
             if exists n :: 0 <= n < |texts| && Parse(num, texts[n], seps).TypeErr?
             then J.Rejected(PARSE_FAILED) else J.Resolved
  {
    var ps := ToPoll(num, seps, key, es);
    J.PollSafety(J.START, ps);
    forall j | 0 <= j < i ensures !J.Terminal(ps[j]) {
      if es[j].Answer? { StatusExact(num, seps, key, es[j].reply); }
    }
    if i < |es| { StatusExact(num, seps, key, es[i].reply); }
    FirstDecides(ps, i);
  }

  lemma {:induction false} FirstDecides(es: seq<J.Event>, i: nat)
    requires i <= |es| && (forall j | 0 <= j < i :: !J.Terminal(es[j])) && (i < |es| ==> J.Terminal(es[i]))
    ensures J.Verdict(es) == if i == |es| then J.Pending
                             else if es[i].status.Finished? then J.Resolved else J.Rejected(es[i].status.error)
    decreases |es|
  {
    if i > 0 {
      assert forall j | 0 <= j < |es[1..]| :: es[1..][j] == es[j + 1];
      FirstDecides(es[1..], i - 1);
    }
  }

  /** A wait that comes to an end: the index is not found at first, the interval then fires once, and
      every node says that it is complete. */
  lemma {:induction false} SecondPoll(num: Numeric, seps: string -> seq<Sep>, key: string, texts: seq<string>)
    requires texts != [] && forall i | 0 <= i < |texts| :: Reports100(Parse(num, texts[i], seps), key)
    ensures var ps := ToPoll(num, seps, key, [Answer(IndexNotFound), Fire, Answer(Texts(texts))]);
      J.IsRun(J.START, ps) && J.Final(J.START, ps).promise == J.Resolved
  {
    var es := [Answer(IndexNotFound), Fire, Answer(Texts(texts))];
    StatusExact(num, seps, key, IndexNotFound);
    StatusExact(num, seps, key, Texts(texts));
    assert ToPoll(num, seps, key, es) == [J.Answer(J.Unfinished), J.Fire, J.Answer(J.Finished)];
    ThreeEvents();
  }

  lemma {:induction false} ThreeEvents()
    ensures var ps := [J.Answer(J.Unfinished), J.Fire, J.Answer(J.Finished)];
      J.IsRun(J.START, ps) && J.Final(J.START, ps).promise == J.Resolved
  {
    var ps := [J.Answer(J.Unfinished), J.Fire, J.Answer(J.Finished)];
    assert ps[1..] == [J.Fire, J.Answer(J.Finished)] && ps[1..][1..] == [J.Answer(J.Finished)];
    assert ps[1..][1..][1..] == [];
  }

  /** On the text itself: a node that prints the fields of the index on one line, with or without
      a trailing separator, counts as done exactly when it prints 100 for load_pct. */
  lemma {:induction false} NodeDoneText(num: Numeric, seps: string -> seq<Sep>, key: string, ps: R.Pairs, j: nat,
                                        trail: bool, newline: bool)
    requires seps(key) == [Two(';', '=')] && num("100")
    requires R.OwnKeys(ps) && key != PROTO && R.PairsFree(ps, ';', '=')
    requires (forall i, k | 0 <= i < k < |ps| :: ps[i].0 != ps[k].0)
    requires j < |ps| && ps[j].0 == "load_pct"
    requires var t := R.Words(R.PairTexts(ps, '='), ';', trail);
      !num(t) && R.PairsFree([(key, t)], '\n', '\t')
    ensures var t := R.Words(R.PairTexts(ps, '='), ';', trail);
      NodeDone(num, seps, key, R.Words(R.PairTexts([(key, t)], '\t'), '\n', newline)) <==> ps[j].1 == "100"
  {
    var t := R.Words(R.PairTexts(ps, '='), ';', trail);
    var lines := [(key, t)];
    assert DeepSplit(num, Text(t), [Two(';', '=')]) == Done(Obj(R.PairMap(num, ps))) by {
      R.ShapeDeepBack(num, R.Record(ps), Two(';', '='), trail);
    }
    assert lines[0].0 == key && lines[0].1 == t;
    R.ResponseBack(num, lines, seps, newline);
    var m := Parse(num, R.Words(R.PairTexts(lines, '\t'), '\n', newline), seps).value;
    assert m[key] == Obj(R.PairMap(num, ps));
    R.PairLookup(num, ps);
    assert R.PairMap(num, ps)["load_pct"] == ParseValue(num, Some(ps[j].1));
  }
}
