/** Consequences of the decoder's definition: a well-formed text frame is
    decoded to its payload, and concrete inputs that show the code's quirks
    (literal un-escaping, re-classification inside a payload, a consumed
    offset that moves backwards, and output that depends on where the
    stream was split). */
module FrameFacts {
  import opened Util
  import opened Frames

  /** The wire form of a text delta: `0:"`, the payload escaped at the
      positions `marks` sets, `"`. */
  function TextFrameOf(p: string, marks: seq<bool>): (f: string)
    requires |marks| == |p|
    ensures |f| == |EscapeWith(p, marks)| + 4
  {
    "0:\"" + EscapeWith(p, marks) + "\""
  }

  /** Escaping adds only backslashes. */
  lemma {:induction false} EscapeChars(p: string, marks: seq<bool>, c: char)
    requires |marks| == |p|
    requires c in EscapeWith(p, marks)
    ensures c in p || c == '\\'
    decreases |p|
  {
    var head := if p[0] == '"' || p[0] == '\\' || marks[0] then ['\\', p[0]] else [p[0]];
    assert EscapeWith(p, marks) == head + EscapeWith(p[1..], marks[1..]);
    if c !in head {
      EscapeChars(p[1..], marks[1..], c);
    }
  }

  /** Positions from `from` to `n - 1` complete nothing, so the pass state
      does not move over them. */
  lemma {:induction false} ScanQuiet(buf: string, from: nat, n: nat)
    requires from <= n <= |buf|
    requires forall m :: from <= m < n ==> FrameAt(buf, m).Incomplete?
    ensures Scan(buf, n) == Scan(buf, from)
  {
    if n > from {
      ScanQuiet(buf, from, n - 1);
    }
  }

  /** A single text frame whose payload holds no `:` is decoded to exactly
      that payload (nothing when it is empty), and the whole frame is
      consumed: no position inside it can start another frame. */
  lemma SingleTextFrame(p: string, marks: seq<bool>)
    requires |marks| == |p|
    requires ':' !in p
    ensures Decoded(TextFrameOf(p, marks)).deltas == (if p == "" then [] else [p])
    ensures Retained(TextFrameOf(p, marks)) == ""
  {
    var buf := TextFrameOf(p, marks);
    var e := EscapeWith(p, marks);
    assert buf[3..3 + |e|] == e;
    assert buf[3 + |e|] == '"';
    ScanTextEscaped(buf, 3, p, marks, "");
    assert "" + p == p;
    assert Classify(buf, 0) == TextFrame;
    assert FrameAt(buf, 0) == Complete(p, |buf|);
    forall m | 1 <= m < |buf|
      ensures FrameAt(buf, m).Incomplete?
    {
      if m + 1 < |buf| && buf[m + 1] == ':' {
        assert buf[m + 1] == e[m - 2];
        EscapeChars(p, marks, ':');
      }
    }
    ScanQuiet(buf, 1, |buf|);
    RetainedIsSuffix(buf);
  }

  /** Un-escaping drops the backslash and keeps the next character as it is,
      so the two characters `\n` are read as the letter `n`. */
  lemma BackslashKeepsNextCharacter()
    ensures ScanText("0:\"a\\nb\"", 3, false, "") == Closed("anb", 7)
  {
    BackslashSteps("0:\"a\\nb\"");
  }

  lemma BackslashSteps(buf: string)
    requires buf == "0:\"a\\nb\""
    ensures ScanText(buf, 3, false, "") == Closed("anb", 7)
  {
    assert buf[3] == 'a' && buf[4] == '\\' && buf[5] == 'n' && buf[6] == 'b' && buf[7] == '"';
    assert "" + [buf[3]] == "a" && "a" + [buf[5]] == "an" && "an" + [buf[6]] == "anb";
    assert ScanText(buf, 7, false, "anb") == Closed("anb", 7);
    assert ScanText(buf, 6, false, "an") == ScanText(buf, 7, false, "anb");
    assert ScanText(buf, 5, true, "a") == ScanText(buf, 6, false, "an");
    assert ScanText(buf, 4, false, "a") == ScanText(buf, 5, true, "a");
    assert ScanText(buf, 3, false, "") == ScanText(buf, 4, false, "a");
  }

  /** A run of ordinary characters up to a quote is copied as it is. */
  lemma {:induction false} ScanTextPlain(buf: string, j: nat, k: nat, acc: string)
    requires j <= k < |buf| && buf[k] == '"'
    requires forall m :: j <= m < k ==> buf[m] != '\\' && buf[m] != '"'
    ensures ScanText(buf, j, false, acc) == Closed(acc + buf[j..k], k)
    decreases k - j
  {
    if j < k {
      ScanTextPlain(buf, j + 1, k, acc + [buf[j]]);
      assert acc + [buf[j]] + buf[j + 1..k] == acc + buf[j..k];
    } else {
      assert acc + buf[j..k] == acc;
    }
  }

  /** A payload ending in `a:{}` is both emitted and re-read as a tool frame
      that ends before the text frame's closing quote: that later frame
      overwrites the consumed offset, which moves back from 8 to 7, and the
      closing quote stays in the buffer. */
  lemma ProcessedCanMoveBack()
    ensures FrameAt("0:\"a:{}\"", 0) == Complete("a:{}", 8)
    ensures Decoded("0:\"a:{}\"") == ScanState(["a:{}"], 7)
    ensures Retained("0:\"a:{}\"") == "\""
  {
    var buf := "0:\"a:{}\"";
    assert ScanText(buf, 3, false, "") == Closed("a:{}", 7) by {
      ScanTextPlain(buf, 3, 7, "");
      assert buf[3..7] == "a:{}";
    }
    assert FrameAt(buf, 0) == Complete("a:{}", 8) by {
      assert Classify(buf, 0) == TextFrame;
    }
    assert FrameAt(buf, 3) == Complete("", 7) by {
      assert Classify(buf, 3) == ToolFrame;
      assert BraceMatch(buf, 5, 0) == Some(6);
    }
    forall m | m in {1, 2, 4, 5, 6, 7}
      ensures FrameAt(buf, m).Incomplete?
    {
      assert Classify(buf, m) == NoFrame;
    }
    assert Scan(buf, 1) == ScanState(["a:{}"], 8);
    ScanQuiet(buf, 1, 3);
    assert Scan(buf, 4) == ScanState(["a:{}"], 7);
    ScanQuiet(buf, 4, 8);
  }

  /** Where the stream is split changes what is emitted. Sent in one read,
      `0:"0:"0:"b"` yields three payloads, because the closing quote of the
      first frame also reads as the start of `0:"0:"`; split after the first
      frame, the same characters yield two. */
  lemma SplitChangesOutput()
    ensures Decoded("0:\"0:\"0:\"b\"").deltas == ["0:", "0:", "b"]
    ensures Decoded("0:\"0:\"").deltas == ["0:"]
    ensures Retained("0:\"0:\"") == ""
    ensures Decoded("0:\"b\"").deltas == ["b"]
  {
    WholeStream();
    FirstPart();
    SingleTextFrame("b", [false]);
    assert TextFrameOf("b", [false]) == "0:\"b\"";
  }

  /** The three text frames of `0:"0:"0:"b"`, each closed by the next quote. */
  lemma WholeStreamFrames(whole: string)
    requires whole == "0:\"0:\"0:\"b\""
    ensures FrameAt(whole, 0) == Complete("0:", 6)
    ensures FrameAt(whole, 3) == Complete("0:", 9)
    ensures FrameAt(whole, 6) == Complete("b", 11)
  {
    assert FrameAt(whole, 0) == Complete("0:", 6) by {
      ScanTextPlain(whole, 3, 5, "");
      assert whole[3..5] == "0:";
      assert Classify(whole, 0) == TextFrame;
    }
    assert FrameAt(whole, 3) == Complete("0:", 9) by {
      ScanTextPlain(whole, 6, 8, "");
      assert whole[6..8] == "0:";
      assert Classify(whole, 3) == TextFrame;
    }
    assert FrameAt(whole, 6) == Complete("b", 11) by {
      ScanTextPlain(whole, 9, 10, "");
      assert whole[9..10] == "b";
      assert Classify(whole, 6) == TextFrame;
    }
  }

  lemma WholeStream()
    ensures Decoded("0:\"0:\"0:\"b\"").deltas == ["0:", "0:", "b"]
  {
    var whole := "0:\"0:\"0:\"b\"";
    WholeStreamFrames(whole);
    forall m | m in {1, 2, 4, 5, 7, 8, 9, 10}
      ensures FrameAt(whole, m).Incomplete?
    {
      assert Classify(whole, m) == NoFrame;
    }
    assert Scan(whole, 1).deltas == ["0:"];
    ScanQuiet(whole, 1, 3);
    assert Scan(whole, 4).deltas == ["0:", "0:"];
    ScanQuiet(whole, 4, 6);
    assert Scan(whole, 7).deltas == ["0:", "0:", "b"];
    ScanQuiet(whole, 7, 11);
  }

  lemma FirstPart()
    ensures Decoded("0:\"0:\"").deltas == ["0:"]
    ensures Retained("0:\"0:\"") == ""
  {
    var first := "0:\"0:\"";
    assert FrameAt(first, 0) == Complete("0:", 6) by {
      ScanTextPlain(first, 3, 5, "");
      assert first[3..5] == "0:";
      assert Classify(first, 0) == TextFrame;
    }
    assert Classify(first, 3) == TextFrame;
    assert ScanText(first, 6, false, "") == Unclosed;
    forall m | m in {1, 2, 3, 4, 5}
      ensures FrameAt(first, m).Incomplete?
    {
    }
    assert Scan(first, 1) == ScanState(["0:"], 6);
    ScanQuiet(first, 1, 6);
  }

  /** The whole frame `0:"9:{}0:"` is emitted, but its payload also holds a
      tool frame `9:{}` and the start of a text frame `0:"` that reuses the
      closing quote; the tool frame is the last to complete, so the offset
      ends at 7 and `0:"` stays in the buffer. */
  lemma FrameWithInnerToolFrame(buf: string)
    requires buf == "0:\"9:{}0:\""
    ensures Decoded(buf) == ScanState(["9:{}0:"], 7)
    ensures Retained(buf) == "0:\""
  {
    assert FrameAt(buf, 0) == Complete("9:{}0:", 10) by {
      ScanTextPlain(buf, 3, 9, "");
      assert buf[3..9] == "9:{}0:";
      assert Classify(buf, 0) == TextFrame;
    }
    assert FrameAt(buf, 3) == Complete("", 7) by {
      assert Classify(buf, 3) == ToolFrame;
      assert BraceMatch(buf, 5, 0) == Some(6);
    }
    assert FrameAt(buf, 7).Incomplete? by {
      assert Classify(buf, 7) == TextFrame;
      assert ScanText(buf, 10, false, "") == Unclosed;
    }
    forall m | m in {1, 2, 4, 5, 6, 8, 9}
      ensures FrameAt(buf, m).Incomplete?
    {
      assert Classify(buf, m) == NoFrame;
    }
    assert Scan(buf, 1) == ScanState(["9:{}0:"], 10);
    ScanQuiet(buf, 1, 3);
    assert Scan(buf, 4) == ScanState(["9:{}0:"], 7);
    ScanQuiet(buf, 4, 10);
  }

  /** The kept `0:"` followed by the frame `0:"b"`: the kept start closes at
      the new frame's opening quote, so `0:` is emitted before `b`. */
  lemma KeptStartAndNextFrame(buf: string)
    requires buf == "0:\"0:\"b\""
    ensures Decoded(buf).deltas == ["0:", "b"]
    ensures Retained(buf) == ""
  {
    assert FrameAt(buf, 0) == Complete("0:", 6) by {
      ScanTextPlain(buf, 3, 5, "");
      assert buf[3..5] == "0:";
      assert Classify(buf, 0) == TextFrame;
    }
    assert FrameAt(buf, 3) == Complete("b", 8) by {
      ScanTextPlain(buf, 6, 7, "");
      assert buf[6..7] == "b";
      assert Classify(buf, 3) == TextFrame;
    }
    forall m | m in {1, 2, 4, 5, 6, 7}
      ensures FrameAt(buf, m).Incomplete?
    {
      assert Classify(buf, m) == NoFrame;
    }
    assert Scan(buf, 1).deltas == ["0:"];
    ScanQuiet(buf, 1, 3);
    assert Scan(buf, 4) == ScanState(["0:", "b"], 8);
    ScanQuiet(buf, 4, 8);
  }

  /** Escaping is per position: in `\nn` the first `n` is escaped and the
      second is not, and the frame still decodes to `nn`. */
  lemma MixedEscapes()
    ensures TextFrameOf("nn", [true, false]) == "0:\"\\nn\""
    ensures Decoded("0:\"\\nn\"").deltas == ["nn"]
  {
    assert EscapeWith("nn", [true, false]) == "\\nn" by {
      assert EscapeWith("n", [false]) == "n";
    }
    SingleTextFrame("nn", [true, false]);
  }

  /** A tool frame with nested braces is consumed through its outer `}`,
      emits nothing, and what follows it is kept for the next read. */
  lemma ToolFrameSkipped()
    ensures Decoded("9:{\"a\":{\"b\":1}}0:") == ScanState([], 15)
    ensures Retained("9:{\"a\":{\"b\":1}}0:") == "0:"
  {
    var buf := "9:{\"a\":{\"b\":1}}0:";
    assert Classify(buf, 0) == ToolFrame;
    NestedBraces(buf);
    assert Classify(buf, 5) == NoFrame && Classify(buf, 10) == NoFrame && Classify(buf, 15) == NoFrame;
    forall m | 1 <= m < |buf|
      ensures FrameAt(buf, m).Incomplete?
    {
      if m !in {5, 10, 15} {
        assert m + 1 == |buf| || buf[m + 1] != ':';
      }
    }
    assert Scan(buf, 1) == ScanState([], 15);
    ScanQuiet(buf, 1, |buf|);
  }

  /** Characters other than braces leave the brace count as it is. */
  lemma {:induction false} BraceMatchSkipsPlain(buf: string, j: nat, k: nat, count: int)
    requires j <= k < |buf|
    requires forall m :: j <= m < k ==> buf[m] != '{' && buf[m] != '}'
    ensures BraceMatch(buf, j, count) == BraceMatch(buf, k, count)
    decreases k - j
  {
    if j < k {
      BraceMatchSkipsPlain(buf, j + 1, k, count);
    }
  }

  lemma NestedBraces(buf: string)
    requires buf == "9:{\"a\":{\"b\":1}}0:"
    ensures BraceMatch(buf, 2, 0) == Some(14)
  {
    assert BraceMatch(buf, 13, 2) == Some(14);
    BraceMatchSkipsPlain(buf, 8, 13, 2);
    assert BraceMatch(buf, 7, 1) == Some(14);
    BraceMatchSkipsPlain(buf, 3, 7, 1);
  }
}
