/** Consequences of the read loop for bodies built from whole text frames:
    each read's payload reaches `onChunk` as it is, in order. */
module ApiFacts {
  import opened Frames
  import opened FrameFacts
  import opened Api

  /** The payloads of `ps` with the empty ones left out. */
  function NonEmpty(ps: seq<string>): (r: seq<string>)
    ensures forall k :: 0 <= k < |r| ==> r[k] != ""
  {
    if ps == [] then [] else (if ps[0] == "" then [] else [ps[0]]) + NonEmpty(ps[1..])
  }

  /** A body of one text frame per read, carrying the payloads `ps`, each
      `ps[k]` escaped at the positions `marks[k]` sets. */
  function TextFrameReads(ps: seq<string>, marks: seq<seq<bool>>): (body: seq<ReadResult>)
    requires |marks| == |ps| && forall k :: 0 <= k < |ps| ==> |marks[k]| == |ps[k]|
    ensures |body| == |ps|
    ensures forall k :: 0 <= k < |ps| ==> body[k] == Data(TextFrameOf(ps[k], marks[k]))
  {
    if ps == [] then [] else [Data(TextFrameOf(ps[0], marks[0]))] + TextFrameReads(ps[1..], marks[1..])
  }

  /** A body made of one well-formed text frame per read (payloads without
      `:`) reaches `onChunk` as exactly those payloads, in order, with the
      empty ones suppressed. */
  lemma {:induction false} ReadLoopOfTextFrames(ps: seq<string>, marks: seq<seq<bool>>)
    requires |marks| == |ps| && forall k :: 0 <= k < |ps| ==> |marks[k]| == |ps[k]|
    requires forall k :: 0 <= k < |ps| ==> ':' !in ps[k]
    ensures ReadLoop("", TextFrameReads(ps, marks)) == ChunkCalls(NonEmpty(ps))
  {
    if ps != [] {
      SingleTextFrame(ps[0], marks[0]);
      assert "" + TextFrameOf(ps[0], marks[0]) == TextFrameOf(ps[0], marks[0]);
      ReadLoopOfTextFrames(ps[1..], marks[1..]);
      ChunkCallsAppend(if ps[0] == "" then [] else [ps[0]], NonEmpty(ps[1..]));
    }
  }

  /** Payloads that hold `:` are outside ReadLoopOfTextFrames, and the
      restriction matters: the whole frames `0:"9:{}0:"` and `0:"b"`, one per
      read, reach `onChunk` as three chunks, the middle one `0:` spurious. */
  lemma WholeFramesSpuriousChunk()
    ensures ReadLoop("", [Data("0:\"9:{}0:\""), Data("0:\"b\"")]) == ChunkCalls(["9:{}0:", "0:", "b"])
  {
    TwoReads("0:\"9:{}0:\"", "0:\"b\"", "0:\"0:\"b\"");
  }

  /** The two reads, with the second pass's buffer (the kept `0:"` and the
      frame `0:"b"`) named. */
  lemma TwoReads(first: string, second: string, joined: string)
    requires first == "0:\"9:{}0:\"" && second == "0:\"b\"" && joined == "0:\"0:\"b\""
    ensures ReadLoop("", [Data(first), Data(second)]) == ChunkCalls(["9:{}0:", "0:", "b"])
  {
    FrameWithInnerToolFrame(first);
    KeptStartAndNextFrame(joined);
    assert "" + first == first;
    assert Retained(first) + second == joined;
    assert [Data(first)] + [Data(second)] == [Data(first), Data(second)];
    assert [Data(second)] + [] == [Data(second)];
    ReadLoopData("", first, [Data(second)]);
    ReadLoopData(Retained(first), second, []);
    ChunkCallsAppend(["9:{}0:"], ["0:", "b"]);
  }

  /** A successful read passes the decoded chunks on and continues with the
      retained buffer. */
  lemma ReadLoopData(buffer: string, t: string, rest: seq<ReadResult>)
    ensures ReadLoop(buffer, [Data(t)] + rest)
      == ChunkCalls(Decoded(buffer + t).deltas) + ReadLoop(Retained(buffer + t), rest)
  {
    assert ([Data(t)] + rest)[1..] == rest;
  }

  lemma ChunkCallsAppend(a: seq<string>, b: seq<string>)
    ensures ChunkCalls(a + b) == ChunkCalls(a) + ChunkCalls(b)
  {
  }
}
