/** The chunk handler of benchmarks/memory.js, which puts lines together from chunks of input. */
module Lines {
  import opened Prelude
  import opened InfoText

  /** The complete lines of a text and what follows its last newline. */
  function Complete(s: string): seq<string> { var ps := Split(s, '\n'); ps[..|ps| - 1] }
  function Residue(s: string): string { var ps := Split(s, '\n'); ps[|ps| - 1] }

  function Flat(chunks: seq<string>): string {
    if chunks == [] then [] else Flat(chunks[..|chunks| - 1]) + chunks[|chunks| - 1]
  }

  /** One chunk: the lines handed to `readline`, and the new partial line. A partial line is
      overwritten by a chunk without a newline. */
  function Feed(pending: string, chunk: string): (seq<string>, string) {
    var ps := Split(chunk, '\n');
    if |ps| == 1 then ([], if chunk == [] then pending else chunk)
    else ([pending + ps[0]] + ps[1..|ps| - 1], ps[|ps| - 1])
  }

  function FeedAll(chunks: seq<string>): (seq<string>, string) {
    if chunks == [] then ([], []) else
      var before := FeedAll(chunks[..|chunks| - 1]);
      var more := Feed(before.1, chunks[|chunks| - 1]);
      (before.0 + more.0, more.1)
  }

  /** The chunk does not fall into the middle of a line without ending it. */
  predicate Fitting(text: string, chunk: string) {
    chunk == [] || '\n' in chunk || text == [] || text[|text| - 1] == '\n'
  }

  predicate Safe(chunks: seq<string>) {
    forall k | 0 <= k < |chunks| :: Fitting(Flat(chunks[..k]), chunks[k])
  }

  // Splitting a text in two parts.

  /** The last piece of one text and the first of the next are one piece. */
  function Glue(a: seq<string>, b: seq<string>): seq<string>
    requires |a| > 0 && |b| > 0
  {
    a[..|a| - 1] + [a[|a| - 1] + b[0]] + b[1..]
  }

  lemma {:induction false} GlueMore(p: string, a: seq<string>, b: seq<string>)
    requires |a| > 0 && |b| > 0
    ensures Glue([p] + a, b) == [p] + Glue(a, b)
  {
  }

  lemma {:induction false} GlueLonger(x: char, a: seq<string>, b: seq<string>)
    requires |a| > 0 && |b| > 0
    ensures Glue([[x] + a[0]] + a[1..], b) == [[x] + Glue(a, b)[0]] + Glue(a, b)[1..]
  {
    var m := [[x] + a[0]] + a[1..];
    if |a| == 1 {
      assert [x] + (a[0] + b[0]) == ([x] + a[0]) + b[0];
    } else {
      assert m[..|m| - 1] == [[x] + a[0]] + a[..|a| - 1][1..];
    }
  }

  lemma {:induction false} SplitConcat(s: string, t: string, c: char)
    ensures Split(s + t, c) == Glue(Split(s, c), Split(t, c))
  {
    var b := Split(t, c);
    if s == [] {
      assert s + t == t;
      assert [] + b[0] == b[0];
    } else {
      var a := Split(s[1..], c);
      SplitConcat(s[1..], t, c);
      assert (s + t)[1..] == s[1..] + t && (s + t)[0] == s[0];
      GlueMore([], a, b);
      GlueLonger(s[0], a, b);
    }
  }

  lemma {:induction false} NewlineSplits(s: string)
    ensures |Split(s, '\n')| == 1 <==> '\n' !in s
    ensures '\n' !in s ==> Split(s, '\n') == [s]
  {
    if '\n' !in s {
      SplitFree(s, '\n');
    } else if s[0] != '\n' {
      NewlineSplits(s[1..]);
    }
  }

  lemma {:induction false} ResidueEmpty(s: string)
    ensures Residue(s) == [] <==> s == [] || s[|s| - 1] == '\n'
  {
    if s != [] {
      var n := |s| - 1;
      SplitConcat(s[..n], s[n..], '\n');
      assert s == s[..n] + s[n..];
      NewlineSplits(s[n..]);
    }
  }

  // Nothing is lost: characters, and one newline for each line.

  function Size(lines: seq<string>): nat {
    if lines == [] then 0 else Size(lines[..|lines| - 1]) + |lines[|lines| - 1]| + 1
  }

  lemma {:induction false} SizeConcat(a: seq<string>, b: seq<string>)
    ensures Size(a + b) == Size(a) + Size(b)
  {
    if b == [] {
      assert a + b == a;
    } else {
      SizeConcat(a, b[..|b| - 1]);
      assert (a + b)[..|a + b| - 1] == a + b[..|b| - 1];
    }
  }

  lemma {:induction false} SizeOne(line: string)
    ensures Size([line]) == |line| + 1
  {
    assert [line][..0] == [];
  }

  lemma {:induction false} SplitSize(s: string)
    ensures Size(Split(s, '\n')) == |s| + 1
  {
    if s == [] {
      SizeOne([]);
    } else {
      var r := Split(s[1..], '\n');
      SplitSize(s[1..]);
      if s[0] == '\n' {
        SizeConcat([[]], r);
        SizeOne([]);
      } else {
        SizeConcat([[s[0]] + r[0]], r[1..]);
        SizeConcat([r[0]], r[1..]);
        assert [r[0]] + r[1..] == r;
        SizeOne(r[0]);
        SizeOne([s[0]] + r[0]);
      }
    }
  }

  /** A chunk adds all its characters, unless it overwrites a partial line. */
  lemma {:induction false} FeedSize(pending: string, chunk: string)
    ensures var r := Feed(pending, chunk);
      Size(r.0) + |r.1|
      == |chunk| + if chunk == [] || '\n' in chunk then |pending| else 0
  {
    var ps := Split(chunk, '\n');
    NewlineSplits(chunk);
    if |ps| > 1 {
      var n := |ps| - 1;
      SplitSize(chunk);
      assert ps == [ps[0]] + ps[1..n] + [ps[n]];
      SizeConcat([ps[0]] + ps[1..n], [ps[n]]);
      SizeConcat([ps[0]], ps[1..n]);
      SizeConcat([pending + ps[0]], ps[1..n]);
      SizeOne(ps[0]);
      SizeOne(ps[n]);
      SizeOne(pending + ps[0]);
    }
  }

  lemma {:induction false} FeedAllSize(chunks: seq<string>)
    ensures var r := FeedAll(chunks); Size(r.0) + |r.1| <= |Flat(chunks)|
  {
    if chunks != [] {
      var n := |chunks| - 1;
      var before := FeedAll(chunks[..n]);
      FeedAllSize(chunks[..n]);
      FeedSize(before.1, chunks[n]);
      SizeConcat(before.0, Feed(before.1, chunks[n]).0);
    }
  }

  lemma {:induction false} TextSize(s: string)
    ensures Size(Complete(s)) + |Residue(s)| == |s|
  {
    var ps := Split(s, '\n');
    SplitSize(s);
    SizeConcat(Complete(s), [Residue(s)]);
    SizeOne(Residue(s));
    assert ps == Complete(s) + [Residue(s)];
  }

  // Chunk independence.

  /** From the right partial line, a fitting chunk leads to the right lines and partial line. */
  lemma {:induction false} FeedRight(text: string, chunk: string)
    requires Fitting(text, chunk)
    ensures var r := Feed(Residue(text), chunk);
      Complete(text + chunk) == Complete(text) + r.0 && Residue(text + chunk) == r.1
  {
    SplitConcat(text, chunk, '\n');
    NewlineSplits(chunk);
    ResidueEmpty(text);
  }

  lemma {:induction false} SafePrefix(chunks: seq<string>)
    requires chunks != []
    ensures var n := |chunks| - 1; Safe(chunks) <==> Safe(chunks[..n]) && Fitting(Flat(chunks[..n]), chunks[n])
  {
    var n := |chunks| - 1;
    assert forall k | 0 <= k < n :: chunks[..n][..k] == chunks[..k] && chunks[..n][k] == chunks[k];
  }

  lemma {:induction false} SafeIsRight(chunks: seq<string>)
    requires Safe(chunks)
    ensures FeedAll(chunks) == (Complete(Flat(chunks)), Residue(Flat(chunks)))
  {
    if chunks != [] {
      var n := |chunks| - 1;
      SafePrefix(chunks);
      SafeIsRight(chunks[..n]);
      FeedRight(Flat(chunks[..n]), chunks[n]);
    }
  }

  lemma {:induction false} FullIsSafe(chunks: seq<string>)
    requires var r := FeedAll(chunks); Size(r.0) + |r.1| == |Flat(chunks)|
    ensures Safe(chunks)
  {
    if chunks != [] {
      var n := |chunks| - 1;
      var before := FeedAll(chunks[..n]);
      FeedAllSize(chunks[..n]);
      FeedSize(before.1, chunks[n]);
      SizeConcat(before.0, Feed(before.1, chunks[n]).0);
      FullIsSafe(chunks[..n]);
      SafeIsRight(chunks[..n]);
      ResidueEmpty(Flat(chunks[..n]));
      SafePrefix(chunks);
    }
  }

  /** The reader is right about the input exactly when no chunk overwrites a partial line. */
  lemma {:induction false} ReaderExact(chunks: seq<string>)
    ensures FeedAll(chunks) == (Complete(Flat(chunks)), Residue(Flat(chunks))) <==> Safe(chunks)
  {
    TextSize(Flat(chunks));
    if Safe(chunks) {
      SafeIsRight(chunks);
    } else if FeedAll(chunks) == (Complete(Flat(chunks)), Residue(Flat(chunks))) {
      FullIsSafe(chunks);
    }
  }

  lemma {:induction false} OneMore(chunks: seq<string>, chunk: string)
    requires '\n' !in chunk
    ensures FeedAll(chunks + [chunk]).0 == FeedAll(chunks).0
    ensures Complete(Flat(chunks + [chunk])) == Complete(Flat(chunks))
  {
    assert (chunks + [chunk])[..|chunks|] == chunks;
    SplitConcat(Flat(chunks), chunk, '\n');
    NewlineSplits(chunk);
  }

  /** Chunks without a newline give no lines. */
  lemma {:induction false} TailGivesNoLines(chunks: seq<string>, tail: seq<string>)
    requires forall i | 0 <= i < |tail| :: '\n' !in tail[i]
    ensures FeedAll(chunks + tail).0 == FeedAll(chunks).0
    ensures Complete(Flat(chunks + tail)) == Complete(Flat(chunks))
  {
    if tail == [] {
      assert chunks + tail == chunks;
    } else {
      var n := |tail| - 1;
      TailGivesNoLines(chunks, tail[..n]);
      LastApart(chunks, tail);
      OneMore(chunks + tail[..n], tail[n]);
    }
  }

  /** `readline` gets exactly the lines of the input, in order, if and only if no partial line is
      overwritten in the chunks up to the last one with a newline. */
  lemma {:induction false} LinesExact(chunks: seq<string>, tail: seq<string>)
    requires chunks != [] ==> '\n' in chunks[|chunks| - 1]
    requires forall i | 0 <= i < |tail| :: '\n' !in tail[i]
    ensures FeedAll(chunks + tail).0 == Complete(Flat(chunks + tail)) <==> Safe(chunks)
  {
    TailGivesNoLines(chunks, tail);
    ReaderExact(chunks);
    if chunks != [] {
      var n := |chunks| - 1;
      NewlineSplits(chunks[n]);
      SplitConcat(Flat(chunks[..n]), chunks[n], '\n');
    }
  }

  /** How the input is cut does not matter. */
  lemma {:induction false} ChunkIndependence(a: seq<string>, b: seq<string>)
    requires Safe(a) && Safe(b) && Flat(a) == Flat(b)
    ensures FeedAll(a) == FeedAll(b)
  {
    ReaderExact(a);
    ReaderExact(b);
  }

  /** A line that comes in three chunks loses the first of them. */
  lemma {:induction false} Overwrite(a: string, b: string, c: string)
    requires '\n' !in a && '\n' !in b && '\n' !in c && b != []
    ensures FeedAll([a, b, c + ['\n']]) == ([b + c], [])
    ensures Complete(Flat([a, b, c + ['\n']])) == [a + b + c]
  {
    var cs := [a, b, c + ['\n']];
    assert cs[..2] == [a, b] && [a, b][..1] == [a] && [a][..0] == [];
    NewlineSplits(a);
    NewlineSplits(b);
    assert FeedAll([a]).0 == [] && FeedAll([a, b]).0 == [] && FeedAll([a, b]).1 == b;
    EndLine(b, c);
    assert [] + [b + c] == [b + c];
    assert Flat([a]) == a && Flat([a, b]) == a + b;
    EndLine([], a + b + c);
    assert a + b + (c + ['\n']) == a + b + c + ['\n'];
    assert [] + (a + b + c) == a + b + c;
  }

  lemma {:induction false} EndLine(pending: string, p: string)
    requires '\n' !in p
    ensures Feed(pending, p + ['\n']) == ([pending + p], [])
    ensures Complete(p + ['\n']) == [p]
  {
    SplitFirst(p, [], '\n');
    assert p + ['\n'] + [] == p + ['\n'];
    var ps := Split(p + ['\n'], '\n');
    assert ps == [p, []];
    assert ps[..1] == [p] && [pending + p] + ps[1..1] == [pending + p];
  }
}
