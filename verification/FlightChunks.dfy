/** Chunk independence of the row parser, exactly where it holds, and the rows of an encoded stream. */
module FlightChunks {
  import opened FlightRows

  /** Feed the chunks one after the other, stopping at a failure. */
  function RunChunks(p: Parser, chunks: seq<seq<nat>>): Outcome {
    if chunks == [] then Open(p)
    else
      match RunChunks(p, chunks[..|chunks| - 1])
      case Failed(rows) => Failed(rows)
      case Open(q) => FeedFrom(q, chunks[|chunks| - 1], 0)
  }

  /** The byte-wise parser after the first k bytes. */
  function After(stream: seq<nat>, k: nat): Parser
    requires k <= |stream|
  {
    Steps(START, stream[..k])
  }

  /** Somewhere in the stream a declared length is below zero, by no more than the bytes before it. */
  ghost predicate SomeOverrun(stream: seq<nat>) {
    exists k :: 0 <= k < |stream| && Overruns(After(stream, k), k)
  }

  lemma StepAfter(stream: seq<nat>, k: nat)
    requires k < |stream|
    ensures After(stream, k + 1) == Step(After(stream, k), stream[k])
  {
    assert stream[..k + 1][..k] == stream[..k];
  }

  // ---------- where nothing overruns ----------

  /** A chunk that starts at offset s of the stream and overruns nowhere is the byte-wise parser. */
  lemma {:induction false} FeedIsSteps(stream: seq<nat>, s: nat, c: seq<nat>, a: nat)
    requires a <= |c| && s + |c| <= |stream| && c == stream[s..s + |c|]
    requires forall j :: s + a <= j < s + |c| ==> !Overruns(After(stream, j), j - s)
    ensures FeedFrom(After(stream, s + a), c, a) == Open(After(stream, s + |c|))
    decreases |c| - a
  {
    if a < |c| {
      assert !Overruns(After(stream, s + a), s + a - s);
      StepAfter(stream, s + a);
      FeedIsSteps(stream, s, c, a + 1);
    }
  }

  lemma {:induction false} RunIsSteps(stream: seq<nat>, chunks: seq<seq<nat>>)
    requires Flatten(chunks) <= stream && !SomeOverrun(stream)
    ensures RunChunks(START, chunks) == Open(After(stream, |Flatten(chunks)|))
  {
    if chunks == [] {
      assert stream[..0] == [];
    } else {
      var before, c := chunks[..|chunks| - 1], chunks[|chunks| - 1];
      var s := |Flatten(before)|;
      assert Flatten(before) <= stream && c == stream[s..s + |c|];
      RunIsSteps(stream, before);
      forall j | s <= j < s + |c| ensures !Overruns(After(stream, j), j - s) {
        assert !Overruns(After(stream, j), j);
      }
      FeedIsSteps(stream, s, c, 0);
    }
  }

  // ---------- where something overruns ----------

  predicate Negative(p: Parser) {
    p.state == 4 && p.length < 0
  }

  /** A negative length only ever gets smaller, byte by byte. */
  lemma {:induction false} StaysNegative(stream: seq<nat>, i: nat, k: nat)
    requires i <= k <= |stream| && Negative(After(stream, i))
    ensures Negative(After(stream, k)) && After(stream, k).length + k == After(stream, i).length + i
    decreases k - i
  {
    if i < k {
      StaysNegative(stream, i, k - 1);
      StepAfter(stream, k - 1);
    }
  }

  /** The first position where the length is negative. */
  lemma {:induction false} FirstNegative(stream: seq<nat>, k: nat) returns (i: nat)
    requires k <= |stream| && Negative(After(stream, k))
    ensures i <= k && Negative(After(stream, i)) && forall j :: 0 <= j < i ==> !Negative(After(stream, j))
  {
    if j :| 0 <= j < k && Negative(After(stream, j)) {
      i := FirstNegative(stream, j);
    } else {
      i := k;
    }
  }

  lemma {:induction false} FeedFails(stream: seq<nat>, a: nat, i: nat)
    requires a <= i < |stream| && Overruns(After(stream, i), i)
    requires forall k :: a <= k < i ==> !Overruns(After(stream, k), k)
    ensures FeedFrom(After(stream, a), stream, a).Failed?
    decreases i - a
  {
    if a < i {
      assert !Overruns(After(stream, a), a);
      StepAfter(stream, a);
      FeedFails(stream, a + 1, i);
    }
  }

  /** Uncut, such a stream fails; cut right before the negative length takes effect, it does not. */
  lemma CutMatters(stream: seq<nat>) returns (chunks: seq<seq<nat>>)
    requires SomeOverrun(stream)
    ensures Flatten(chunks) == stream && RunChunks(START, chunks).Open? && RunChunks(START, [stream]).Failed?
  {
    var k :| 0 <= k < |stream| && Overruns(After(stream, k), k);
    var i := FirstNegative(stream, k);
    StaysNegative(stream, i, k);
    var a, b := stream[..i], stream[i..];
    chunks := [a, b];
    CutOpens(stream, i);
    WholeIsOne(stream);
    FeedFails(stream, 0, i);
  }

  lemma CutOpens(stream: seq<nat>, i: nat)
    requires i <= |stream| && Negative(After(stream, i)) && forall j :: 0 <= j < i ==> !Negative(After(stream, j))
    ensures var chunks := [stream[..i], stream[i..]];
            Flatten(chunks) == stream && RunChunks(START, chunks).Open?
  {
    var a, b := stream[..i], stream[i..];
    var chunks := [a, b];
    WholeIsOne(a);
    assert chunks[..1] == [a];
    assert stream[..0] == [];
    forall j | 0 <= j < i ensures !Overruns(After(stream, j), j - 0) {
      assert !Negative(After(stream, j));
    }
    FeedIsSteps(stream, 0, a, 0);
    forall j | i <= j < i + |b| ensures !Overruns(After(stream, j), j - i) {
      StaysNegative(stream, i, j);
    }
    FeedIsSteps(stream, i, b, 0);
  }

  lemma WholeIsOne(c: seq<nat>)
    ensures Flatten([c]) == c && RunChunks(START, [c]) == FeedFrom(START, c, 0) && After(c, 0) == START
  {
    var one := [c];
    assert one[..0] == [];
  }

  // ---------- the theorem ----------

  /** Every way of cutting the stream has the same outcome as the uncut stream. */
  ghost predicate CutIndependent(stream: seq<nat>) {
    forall chunks :: Flatten(chunks) == stream ==> RunChunks(START, chunks) == RunChunks(START, [stream])
  }

  /** Chunk independence holds exactly for the streams in which no length overruns. */
  lemma ChunkIndependence(stream: seq<nat>)
    ensures CutIndependent(stream) <==> !SomeOverrun(stream)
    ensures !SomeOverrun(stream) ==>
              forall chunks :: Flatten(chunks) == stream ==> RunChunks(START, chunks) == Open(Steps(START, stream))
  {
    assert stream[..|stream|] == stream;
    if SomeOverrun(stream) {
      var chunks := CutMatters(stream);
    } else {
      forall chunks | Flatten(chunks) == stream
        ensures RunChunks(START, chunks) == Open(Steps(START, stream))
      {
        RunIsSteps(stream, chunks);
      }
      WholeIsOne(stream);
    }
  }

  /** The reader, fed chunk by chunk, computes RunChunks. */
  method ReadAll(chunks: seq<seq<nat>>) returns (rows: seq<Row>, failed: bool)
    ensures match RunChunks(START, chunks)
            case Failed(r) => failed && rows == r
            case Open(p) => !failed && rows == p.rows
  {
    var reader := new Reader();
    assert chunks[..0] == [];
    var k := 0;
    while k < |chunks| && !reader.failed
      invariant 0 <= k <= |chunks|
      invariant !reader.failed ==> reader.Valid() && RunChunks(START, chunks[..k]) == Open(reader.View())
      invariant reader.failed ==> RunChunks(START, chunks) == Failed(reader.rows)
    {
      assert chunks[..k + 1][..k] == chunks[..k];
      reader.Feed(chunks[k]);
      k := k + 1;
      if reader.failed {
        FailureStays(chunks, k);
      }
    }
    assert chunks[..|chunks|] == chunks;
    rows, failed := reader.rows, reader.failed;
  }

  lemma {:induction false} FailureStays(chunks: seq<seq<nat>>, k: nat)
    requires k <= |chunks| && RunChunks(START, chunks[..k]).Failed?
    ensures RunChunks(START, chunks) == RunChunks(START, chunks[..k])
    decreases |chunks|
  {
    if k == |chunks| {
      assert chunks[..k] == chunks;
    } else {
      assert chunks[..|chunks| - 1][..k] == chunks[..k];
      FailureStays(chunks[..|chunks| - 1], k);
    }
  }
}
