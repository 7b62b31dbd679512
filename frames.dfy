/** The streaming frame decoder of `sendMessageToWeatherAgent`
    (src/services/api.ts): one read appends the decoded chunk to a retained
    buffer, every position of the buffer is classified by its discriminant,
    completed text frames are emitted, and the buffer keeps what follows the
    end of the most recently completed frame.

    The scan is specified by value-level functions (`Classify`, `ScanText`,
    `FirstClose`, `BraceMatch`, `FrameAt`, `Scan`) that follow the code branch
    for branch; `StreamDecoder.Feed` is the imperative loop, proved equal to
    them. Quirks of the code are kept: un-escaping keeps the character after a
    backslash literally, scanning resumes at the next position after a frame
    (so positions inside a payload are classified again), and the consumed
    offset is overwritten by each completed frame rather than maximised. */
module Frames {
  import opened Util

  const MetadataPrefix: string := "f:{\"messageId\""
  const FinishPrefixE: string := "e:{\"finishReason\""
  const FinishPrefixD: string := "d:{\"finishReason\""

  /** `buf.substring(i).startsWith(prefix)`. */
  predicate StartsAt(buf: string, i: nat, prefix: string) {
    i + |prefix| <= |buf| && buf[i..i + |prefix|] == prefix
  }

  /** A prefix found at `i` fixes the characters at `i` and `i + 1`. */
  lemma StartsAtHead(buf: string, i: nat, prefix: string)
    requires |prefix| >= 2
    ensures StartsAt(buf, i, prefix) ==> buf[i..i + 2] == prefix[..2]
  {
  }

  datatype FrameKind = TextFrame | MetadataFrame | ToolFrame | FinishFrame | NoFrame

  /** Which frame, if any, begins at position `i`; the tests are tried in the
      order of the code's if-else chain. */
  function Classify(buf: string, i: nat): (k: FrameKind)
    requires i < |buf|
    ensures k != NoFrame ==> i + 1 < |buf| && buf[i + 1] == ':'
    ensures k == TextFrame <==> buf[i] == '0' && i + 2 < |buf| && buf[i + 1] == ':' && buf[i + 2] == '"'
    ensures k == ToolFrame <==> (buf[i] == '9' || buf[i] == 'a') && i + 1 < |buf| && buf[i + 1] == ':'
    ensures k == MetadataFrame <==> StartsAt(buf, i, MetadataPrefix)
    ensures k == FinishFrame <==> StartsAt(buf, i, FinishPrefixE) || StartsAt(buf, i, FinishPrefixD)
  {
    var c := buf[i];
    assert MetadataPrefix[..2] == "f:" && FinishPrefixE[..2] == "e:" && FinishPrefixD[..2] == "d:";
    StartsAtHead(buf, i, MetadataPrefix);
    StartsAtHead(buf, i, FinishPrefixE);
    StartsAtHead(buf, i, FinishPrefixD);
    if c == '0' && i + 2 < |buf| && buf[i + 1] == ':' && buf[i + 2] == '"' then TextFrame
    else if c == 'f' && StartsAt(buf, i, MetadataPrefix) then MetadataFrame
    else if (c == '9' || c == 'a') && i + 1 < |buf| && buf[i + 1] == ':' then ToolFrame
    else if c == 'e' && StartsAt(buf, i, FinishPrefixE) then FinishFrame
    else if c == 'd' && StartsAt(buf, i, FinishPrefixD) then FinishFrame
    else NoFrame
  }

  // ---------------------------------------------------------------------------
  // Text frames: `0:"` ... first unescaped `"`.

  datatype TextScan = Unclosed | Closed(payload: string, quote: nat)

  /** The text-frame loop from position `j`, with the escape flag and the
      payload gathered so far: a backslash that is not itself escaped is
      dropped and marks the next character, an unescaped quote closes the
      frame, every other character (escaped or not) is kept as it is. */
  function ScanText(buf: string, j: nat, escaped: bool, acc: string): (r: TextScan)
    decreases |buf| - j
    ensures r.Closed? ==> j <= r.quote < |buf| && buf[r.quote] == '"'
    ensures r.Closed? ==> acc <= r.payload && |r.payload| <= |acc| + (r.quote - j)
  {
    if j >= |buf| then Unclosed
    else if buf[j] == '\\' && !escaped then ScanText(buf, j + 1, true, acc)
    else if buf[j] == '"' && !escaped then Closed(acc, j)
    else ScanText(buf, j + 1, false, acc + [buf[j]])
  }

  /** Backslash escaping as a JSON writer does it: a quote and a backslash
      always get a backslash in front, and so does every character `p[k]`
      whose mark `marks[k]` is set. An escape such as `\n`, `\t`, `\/` or
      `\u0041` is the backslash followed by the marked character `n`, `t`,
      `/` or `u`; the same character may be escaped at one position and
      plain at another. */
  function EscapeWith(p: string, marks: seq<bool>): (e: string)
    requires |marks| == |p|
    ensures |e| >= |p|
  {
    if p == [] then []
    else (if p[0] == '"' || p[0] == '\\' || marks[0] then ['\\', p[0]] else [p[0]]) + EscapeWith(p[1..], marks[1..])
  }

  /** Round trip: an escaped payload followed by a quote is read back with
      every escaping backslash dropped and the character after it kept as it
      is, and the frame closes exactly at that quote, whichever positions
      were escaped. */
  lemma {:induction false} ScanTextEscaped(buf: string, j: nat, p: string, marks: seq<bool>, acc: string)
    requires |marks| == |p|
    requires j + |EscapeWith(p, marks)| < |buf|
    requires buf[j..j + |EscapeWith(p, marks)|] == EscapeWith(p, marks) && buf[j + |EscapeWith(p, marks)|] == '"'
    ensures ScanText(buf, j, false, acc) == Closed(acc + p, j + |EscapeWith(p, marks)|)
    decreases |p|
  {
    if p == [] {
      assert acc + p == acc;
    } else {
      var e := EscapeWith(p, marks);
      var rest := EscapeWith(p[1..], marks[1..]);
      var escaped := p[0] == '"' || p[0] == '\\' || marks[0];
      var head := if escaped then ['\\', p[0]] else [p[0]];
      assert e == head + rest;
      assert buf[j + |head|..j + |head| + |rest|] == e[|head|..];
      assert e[|head|..] == rest;
      assert buf[j + |head| + |rest|] == '"';
      assert acc + [p[0]] + p[1..] == acc + p;
      if escaped {
        assert buf[j] == e[0] == '\\' && buf[j + 1] == e[1] == p[0];
        calc {
          ScanText(buf, j, false, acc);
          ScanText(buf, j + 1, true, acc);
          ScanText(buf, j + 2, false, acc + [p[0]]);
          { ScanTextEscaped(buf, j + 2, p[1..], marks[1..], acc + [p[0]]); }
          Closed(acc + [p[0]] + p[1..], j + 2 + |rest|);
        }
      } else {
        assert buf[j] == e[0] == p[0];
        ScanTextEscaped(buf, j + 1, p[1..], marks[1..], acc + [p[0]]);
      }
    }
  }

  /** `w` is the wire text of the payload `p` under some choice of escaped
      positions. */
  ghost predicate EscapingOf(w: string, p: string) {
    exists marks: seq<bool> :: |marks| == |p| && EscapeWith(p, marks) == w
  }

  /** The converse: whenever the text loop closes, the characters it read
      (after a pending backslash when it started escaped) are an escaping of
      what it added to the payload, so the close is the first quote that no
      backslash escapes. */
  lemma {:induction false} ScanTextClosedIsEscaped(buf: string, j: nat, escaped: bool, acc: string)
    requires ScanText(buf, j, escaped, acc).Closed?
    ensures var r := ScanText(buf, j, escaped, acc);
      EscapingOf((if escaped then ['\\'] else []) + buf[j..r.quote], r.payload[|acc|..])
    decreases |buf| - j
  {
    var r := ScanText(buf, j, escaped, acc);
    var pre: string := if escaped then ['\\'] else [];
    if buf[j] == '\\' && !escaped {
      assert r == ScanText(buf, j + 1, true, acc);
      ScanTextClosedIsEscaped(buf, j + 1, true, acc);
      SliceCons(buf, j, r.quote);
      assert pre + buf[j..r.quote] == ['\\'] + buf[j + 1..r.quote];
    } else if buf[j] == '"' && !escaped {
      assert r == Closed(acc, j);
      assert EscapeWith([], []) == pre + buf[j..j];
      assert r.payload[|acc|..] == [];
    } else {
      var acc' := acc + [buf[j]];
      assert r == ScanText(buf, j + 1, false, acc');
      ScanTextClosedIsEscaped(buf, j + 1, false, acc');
      SliceCons(buf, j, r.quote);
      EscapingOfCons(buf[j + 1..r.quote], buf[j], r.payload, acc, escaped);
    }
  }

  /** One more character read, plain or after a pending backslash, extends
      an escaping by that character. */
  lemma EscapingOfCons(w: string, c: char, payload: string, acc: string, escaped: bool)
    requires escaped || (c != '"' && c != '\\')
    requires acc + [c] <= payload
    requires EscapingOf(w, payload[|acc| + 1..])
    ensures EscapingOf((if escaped then ['\\'] else []) + ([c] + w), payload[|acc|..])
  {
    var p := payload[|acc| + 1..];
    var marks: seq<bool> :| |marks| == |p| && EscapeWith(p, marks) == w;
    EscapeCons(c, p, escaped, marks);
    PrefixTail(acc, c, payload);
    assert |[escaped] + marks| == |[c] + p|;
  }

  lemma PrefixTail(acc: string, c: char, s: string)
    requires acc + [c] <= s
    ensures s[|acc|..] == [c] + s[|acc| + 1..]
  {
    assert s[|acc|] == (acc + [c])[|acc|];
  }

  lemma SliceCons(s: string, i: nat, k: nat)
    requires i < k <= |s|
    ensures s[i..k] == [s[i]] + s[i + 1..k]
  {
  }

  /** Escaping one more leading character, which is a plain character or
      follows a pending backslash. */
  lemma EscapeCons(c: char, p: string, escaped: bool, marks: seq<bool>)
    requires |marks| == |p|
    requires escaped || (c != '"' && c != '\\')
    ensures (if escaped then ['\\'] else []) + ([c] + EscapeWith(p, marks)) == EscapeWith([c] + p, [escaped] + marks)
  {
    assert ([c] + p)[1..] == p && ([escaped] + marks)[1..] == marks;
  }

  // ---------------------------------------------------------------------------
  // Metadata and finish frames: the first `}` at or after the frame start.

  /** The first `}` at or after `j`, if there is one. */
  function FirstClose(buf: string, j: nat): (r: Option<nat>)
    decreases |buf| - j
    ensures r.Some? ==> j <= r.value < |buf| && buf[r.value] == '}'
    ensures r.Some? ==> forall m :: j <= m < r.value ==> buf[m] != '}'
    ensures r.None? ==> forall m :: j <= m < |buf| ==> buf[m] != '}'
  {
    if j >= |buf| then None
    else if buf[j] == '}' then Some(j)
    else FirstClose(buf, j + 1)
  }

  // ---------------------------------------------------------------------------
  // Tool frames: brace counting from two characters after the start.

  /** Opening minus closing braces in `s`. */
  function Depth(s: string): int {
    if s == [] then 0
    else Depth(s[..|s| - 1]) + (if s[|s| - 1] == '{' then 1 else if s[|s| - 1] == '}' then -1 else 0)
  }

  /** The brace-counting loop from `j` with the count so far: the count goes
      up at `{` and down at `}`, and the loop stops at the `}` that brings it
      back to zero. A count that went below zero must come back through
      further braces. */
  function BraceMatch(buf: string, j: nat, count: int): (r: Option<nat>)
    decreases |buf| - j
    ensures r.Some? ==> j <= r.value < |buf| && buf[r.value] == '}'
  {
    if j >= |buf| then None
    else if buf[j] == '{' then BraceMatch(buf, j + 1, count + 1)
    else if buf[j] == '}' then (if count - 1 == 0 then Some(j) else BraceMatch(buf, j + 1, count - 1))
    else BraceMatch(buf, j + 1, count)
  }

  lemma DepthSnoc(buf: string, j: nat, m: nat)
    requires j <= m < |buf|
    ensures Depth(buf[j..m + 1]) == Depth(buf[j..m]) + (if buf[m] == '{' then 1 else if buf[m] == '}' then -1 else 0)
  {
    assert buf[j..m + 1][..m - j] == buf[j..m];
  }

  /** `BraceMatch` stops at the first `}` at which the count, started at
      `count0` from `start`, reaches zero, and fails when there is none. */
  lemma BraceMatchBalanced(buf: string, start: nat, j: nat, count0: int)
    requires start <= j <= |buf|
    ensures var r := BraceMatch(buf, j, count0 + Depth(buf[start..j]));
      && (r.Some? ==> count0 + Depth(buf[start..r.value + 1]) == 0)
      && (forall m :: j <= m < |buf| && buf[m] == '}' && count0 + Depth(buf[start..m + 1]) == 0
            ==> r.Some? && r.value <= m)
  {
    BraceMatchEndBalances(buf, start, j, count0);
    forall m | j <= m < |buf| && buf[m] == '}' && count0 + Depth(buf[start..m + 1]) == 0
      ensures BraceMatch(buf, j, count0 + Depth(buf[start..j])).Some?
      ensures BraceMatch(buf, j, count0 + Depth(buf[start..j])).value <= m
    {
      BraceMatchReachesBalance(buf, start, j, m, count0);
    }
  }

  lemma {:induction false} BraceMatchEndBalances(buf: string, start: nat, j: nat, count0: int)
    requires start <= j <= |buf|
    ensures var r := BraceMatch(buf, j, count0 + Depth(buf[start..j]));
      r.Some? ==> count0 + Depth(buf[start..r.value + 1]) == 0
    decreases |buf| - j
  {
    if j < |buf| {
      DepthSnoc(buf, start, j);
      BraceMatchEndBalances(buf, start, j + 1, count0);
    }
  }

  lemma {:induction false} BraceMatchReachesBalance(buf: string, start: nat, j: nat, m: nat, count0: int)
    requires start <= j <= m < |buf| && buf[m] == '}' && count0 + Depth(buf[start..m + 1]) == 0
    ensures var r := BraceMatch(buf, j, count0 + Depth(buf[start..j]));
      r.Some? && r.value <= m
    decreases m - j
  {
    DepthSnoc(buf, start, j);
    if j < m {
      BraceMatchReachesBalance(buf, start, j + 1, m, count0);
    }
  }

  /** The tool-frame match at `i` closes at the first `}` where the braces
      counted from `i + 2` balance, and only at such a brace. */
  lemma ToolFrameEnd(buf: string, i: nat)
    requires i + 2 <= |buf|
    ensures var r := BraceMatch(buf, i + 2, 0);
      && (r.Some? ==> buf[r.value] == '}' && Depth(buf[i + 2..r.value + 1]) == 0)
      && (forall m :: i + 2 <= m < |buf| && buf[m] == '}' && Depth(buf[i + 2..m + 1]) == 0
            ==> r.Some? && r.value <= m)
  {
    assert buf[i + 2..i + 2] == [];
    BraceMatchBalanced(buf, i + 2, i + 2, 0);
  }

  // ---------------------------------------------------------------------------
  // One position, one pass.

  /** What position `i` contributes: nothing, or a completed frame with the
      text it emits ("" for non-text frames and empty text frames) and the
      offset just past its last character. */
  datatype Completion = Incomplete | Complete(text: string, end: nat)

  function FrameAt(buf: string, i: nat): (c: Completion)
    requires i < |buf|
    ensures c.Complete? ==> i < c.end <= |buf|
  {
    match Classify(buf, i)
    case TextFrame =>
      (match ScanText(buf, i + 3, false, "")
       case Unclosed => Incomplete
       case Closed(p, q) => Complete(p, q + 1))
    case MetadataFrame =>
      (match FirstClose(buf, i)
       case None => Incomplete
       case Some(k) => Complete("", k + 1))
    case FinishFrame =>
      (match FirstClose(buf, i)
       case None => Incomplete
       case Some(k) => Complete("", k + 1))
    case ToolFrame =>
      (match BraceMatch(buf, i + 2, 0)
       case None => Incomplete
       case Some(k) => Complete("", k + 1))
    case NoFrame => Incomplete
  }

  /** The `onChunk` payloads emitted so far and the consumed offset
      (`processedLength`). */
  datatype ScanState = ScanState(deltas: seq<string>, processed: nat)

  /** The state of the pass after positions `0 .. n - 1`: a completed frame
      overwrites the consumed offset and, when its text is non-empty, emits it. */
  function Scan(buf: string, n: nat): (s: ScanState)
    requires n <= |buf|
    ensures |s.deltas| <= n
  {
    if n == 0 then ScanState([], 0) else Advance(Scan(buf, n - 1), FrameAt(buf, n - 1))
  }

  /** One position's effect on the pass state: a completed frame overwrites
      the consumed offset and, when its text is non-empty, emits it. */
  function Advance(s: ScanState, c: Completion): (r: ScanState)
    ensures c.Incomplete? ==> r == s
    ensures c.Complete? ==> r.processed == c.end
    ensures s.deltas <= r.deltas && |r.deltas| <= |s.deltas| + 1
  {
    match c
    case Incomplete => s
    case Complete(t, e) => ScanState(if t == "" then s.deltas else s.deltas + [t], e)
  }

  /** The result of one full pass over the buffer. */
  function Decoded(buf: string): (r: ScanState)
    ensures |r.deltas| <= |buf|
  {
    Scan(buf, |buf|)
  }

  /** What the buffer keeps after the pass: everything when no frame
      completed, otherwise the text after the consumed offset. */
  function Retained(buf: string): (r: string)
    ensures |r| <= |buf| && r == buf[|buf| - |r|..]
  {
    var p := Decoded(buf).processed;
    if 0 < p <= |buf| then buf[p..] else buf
  }

  // ---------------------------------------------------------------------------
  // Properties of one pass.

  /** Some position below `n` completes a frame. */
  predicate CompletesBefore(buf: string, n: nat)
    requires n <= |buf|
  {
    exists i :: 0 <= i < n && FrameAt(buf, i).Complete?
  }

  /** The consumed offset never passes the scanned prefix, every emitted
      payload is non-empty, and the offset is zero exactly when no frame has
      completed. */
  lemma {:induction false} ScanBounds(buf: string, n: nat)
    requires n <= |buf|
    ensures Scan(buf, n).processed <= |buf|
    ensures forall k :: 0 <= k < |Scan(buf, n).deltas| ==> Scan(buf, n).deltas[k] != ""
    ensures Scan(buf, n).processed == 0 <==> !CompletesBefore(buf, n)
  {
    if n > 0 {
      ScanBounds(buf, n - 1);
      var c := FrameAt(buf, n - 1);
      if c.Complete? {
        assert FrameAt(buf, n - 1).Complete?;
        assert CompletesBefore(buf, n);
      } else {
        if CompletesBefore(buf, n) {
          var i :| 0 <= i < n && FrameAt(buf, i).Complete?;
          assert i < n - 1;
          assert CompletesBefore(buf, n - 1);
        }
        if CompletesBefore(buf, n - 1) {
          var i :| 0 <= i < n - 1 && FrameAt(buf, i).Complete?;
          assert CompletesBefore(buf, n);
        }
      }
    }
  }

  /** After a pass, `processedLength` lies within the buffer; the buffer kept
      is the whole buffer when no frame completed and otherwise exactly what
      follows the consumed offset; either way it is a suffix of the buffer. */
  lemma RetainedIsSuffix(buf: string)
    ensures 0 <= Decoded(buf).processed <= |buf|
    ensures Decoded(buf).processed == 0 ==> Retained(buf) == buf
    ensures Decoded(buf).processed > 0 ==> Retained(buf) == buf[Decoded(buf).processed..]
    ensures |Retained(buf)| <= |buf| && Retained(buf) == buf[|buf| - |Retained(buf)|..]
  {
    ScanBounds(buf, |buf|);
  }

  /** The offset after the pass is the end of the LAST completed frame: later
      frames overwrite earlier ones, whether their end is further or not. */
  lemma {:induction false} ProcessedIsLastCompletion(buf: string, n: nat, i: nat)
    requires i < n <= |buf|
    requires FrameAt(buf, i).Complete?
    requires forall m :: i < m < n ==> FrameAt(buf, m).Incomplete?
    ensures Scan(buf, n).processed == FrameAt(buf, i).end
  {
    if n - 1 > i {
      assert FrameAt(buf, n - 1).Incomplete?;
      ProcessedIsLastCompletion(buf, n - 1, i);
    }
  }

  /** The positions, in scan order, whose frames emit text. */
  function EmitStarts(buf: string, n: nat): (starts: seq<nat>)
    requires n <= |buf|
    ensures forall k :: 0 <= k < |starts| ==> starts[k] < n
  {
    if n == 0 then []
    else
      var prev := EmitStarts(buf, n - 1);
      match FrameAt(buf, n - 1)
      case Incomplete => prev
      case Complete(t, _) => if t == "" then prev else prev + [n - 1]
  }

  /** `onChunk` is called in increasing order of frame start, and the k-th
      call carries the payload of the text frame at the k-th start. */
  lemma {:induction false} DeltasInStartOrder(buf: string, n: nat)
    requires n <= |buf|
    ensures |EmitStarts(buf, n)| == |Scan(buf, n).deltas|
    ensures forall a, b :: 0 <= a < b < |EmitStarts(buf, n)| ==> EmitStarts(buf, n)[a] < EmitStarts(buf, n)[b]
    ensures forall k :: 0 <= k < |EmitStarts(buf, n)| ==>
      var i := EmitStarts(buf, n)[k];
      Classify(buf, i) == TextFrame && FrameAt(buf, i).Complete? && FrameAt(buf, i).text == Scan(buf, n).deltas[k]
  {
    if n > 0 {
      DeltasInStartOrder(buf, n - 1);
    }
  }

  /** A text frame at `i` that closes emits exactly the un-escaped characters
      up to the first unescaped quote (nothing if that is empty) and moves the
      consumed offset just past the quote; one that does not close changes
      nothing. */
  lemma TextFrameStep(buf: string, i: nat)
    requires i < |buf| && Classify(buf, i) == TextFrame
    ensures var prev := Scan(buf, i);
      match ScanText(buf, i + 3, false, "")
      case Unclosed => Scan(buf, i + 1) == prev
      case Closed(p, q) =>
        && buf[q] == '"' && Scan(buf, i + 1).processed == q + 1
        && Scan(buf, i + 1).deltas == (if p == "" then prev.deltas else prev.deltas + [p])
  {
  }

  /** Metadata and finish frames never emit text; they consume through the
      first `}` at or after their start, or leave the state alone when there
      is none. */
  lemma SkippedFrameStep(buf: string, i: nat)
    requires i < |buf| && Classify(buf, i) in {MetadataFrame, FinishFrame}
    ensures Scan(buf, i + 1).deltas == Scan(buf, i).deltas
    ensures match FirstClose(buf, i)
      case None => Scan(buf, i + 1) == Scan(buf, i)
      case Some(k) => buf[k] == '}' && Scan(buf, i + 1).processed == k + 1
  {
  }

  /** A tool frame never emits text; it consumes through the brace that
      balances the count started at `i + 2`, or leaves the state alone. */
  lemma ToolFrameStep(buf: string, i: nat)
    requires i < |buf| && Classify(buf, i) == ToolFrame
    ensures Scan(buf, i + 1).deltas == Scan(buf, i).deltas
    ensures match BraceMatch(buf, i + 2, 0)
      case None => Scan(buf, i + 1) == Scan(buf, i)
      case Some(k) => Depth(buf[i + 2..k + 1]) == 0 && Scan(buf, i + 1).processed == k + 1
  {
    ToolFrameEnd(buf, i);
  }

  // ---------------------------------------------------------------------------
  // The three inner loops of the pass, each run from the position the code
  // starts it at.

  /** The text-frame loop from `start` (just after `0:"`): gathers the
      payload until the first unescaped quote. */
  method ReadText(buf: string, start: nat) returns (closed: bool, textContent: string, quote: nat)
    ensures closed <==> ScanText(buf, start, false, "").Closed?
    ensures closed ==> ScanText(buf, start, false, "") == Closed(textContent, quote)
  {
    var j := start;
    textContent := "";
    var escaped := false;
    closed, quote := false, 0;
    while j < |buf|
      invariant start <= j
      invariant ScanText(buf, start, false, "") == ScanText(buf, j, escaped, textContent)
      decreases |buf| - j
    {
      if buf[j] == '\\' && !escaped {
        escaped := true;
        j := j + 1;
        continue;
      }
      if buf[j] == '"' && !escaped {
        closed, quote := true, j;
        break;
      }
      textContent := textContent + [buf[j]];
      escaped := false;
      j := j + 1;
    }
  }

  /** The metadata/finish loop: advance from `start` to the first `}`, or to
      the end of the buffer when there is none. */
  method SkipToClose(buf: string, start: nat) returns (j: nat)
    requires start <= |buf|
    ensures start <= j <= |buf|
    ensures j < |buf| ==> buf[j] == '}'
    ensures forall m :: start <= m < j ==> buf[m] != '}'
  {
    j := start;
    while j < |buf| && buf[j] != '}'
      invariant start <= j <= |buf|
      invariant forall m :: start <= m < j ==> buf[m] != '}'
    {
      j := j + 1;
    }
  }

  /** The tool-frame loop: count braces from `start` and stop at the `}` that
      brings the count back to zero. */
  method MatchBraces(buf: string, start: nat) returns (found: bool, j: nat)
    ensures found <==> BraceMatch(buf, start, 0).Some?
    ensures found ==> j == BraceMatch(buf, start, 0).value
  {
    var braceCount := 0;
    j := start;
    found := false;
    while j < |buf|
      invariant start <= j
      invariant BraceMatch(buf, start, 0) == BraceMatch(buf, j, braceCount)
      decreases |buf| - j
    {
      if buf[j] == '{' {
        braceCount := braceCount + 1;
      } else if buf[j] == '}' {
        braceCount := braceCount - 1;
        if braceCount == 0 {
          found := true;
          break;
        }
      }
      j := j + 1;
    }
  }

  /** The body of the scan loop for position `i`: dispatch on the frame kind,
      run that frame's inner loop, and update the payloads and the offset. */
  method Position(buf: string, i: nat, deltas0: seq<string>, processed0: nat)
    returns (deltas: seq<string>, processedLength: nat)
    requires i < |buf|
    ensures ScanState(deltas, processedLength) == Advance(ScanState(deltas0, processed0), FrameAt(buf, i))
  {
    deltas, processedLength := deltas0, processed0;
    var c := buf[i];
    if c == '0' && i + 2 < |buf| && buf[i + 1] == ':' && buf[i + 2] == '"' {
      var closed, textContent, quote := ReadText(buf, i + 3);
      if closed {
        if textContent != "" {
          deltas := deltas + [textContent];
        }
        processedLength := quote + 1;
      }
      assert Classify(buf, i) == TextFrame;
    } else if c == 'f' && StartsAt(buf, i, MetadataPrefix) {
      processedLength := SkipFrame(buf, i, processedLength);
      assert Classify(buf, i) == MetadataFrame;
    } else if (c == '9' || c == 'a') && i + 1 < |buf| && buf[i + 1] == ':' {
      var found, j := MatchBraces(buf, i + 2);
      if found {
        processedLength := j + 1;
      }
      assert Classify(buf, i) == ToolFrame;
    } else if c == 'e' && StartsAt(buf, i, FinishPrefixE) {
      processedLength := SkipFrame(buf, i, processedLength);
      assert Classify(buf, i) == FinishFrame;
    } else if c == 'd' && StartsAt(buf, i, FinishPrefixD) {
      processedLength := SkipFrame(buf, i, processedLength);
      assert Classify(buf, i) == FinishFrame;
    } else {
      assert Classify(buf, i) == NoFrame;
    }
  }

  /** A metadata or finish frame at `i`: consume through the first `}`, or
      leave the offset alone when there is none yet. */
  method SkipFrame(buf: string, i: nat, processed0: nat) returns (processedLength: nat)
    requires i < |buf|
    ensures processedLength == match FirstClose(buf, i) case None => processed0 case Some(k) => k + 1
  {
    processedLength := processed0;
    var j := SkipToClose(buf, i);
    if j < |buf| {
      processedLength := j + 1;
    }
    SkipToCloseIsFirstClose(buf, i, j);
  }

  /** `SkipToClose` stops where `FirstClose` says. */
  lemma SkipToCloseIsFirstClose(buf: string, start: nat, j: nat)
    requires start <= j <= |buf|
    requires j < |buf| ==> buf[j] == '}'
    requires forall m :: start <= m < j ==> buf[m] != '}'
    ensures FirstClose(buf, start) == if j < |buf| then Some(j) else None
  {
    var r := FirstClose(buf, start);
    if r.Some? && j < |buf| {
      assert !(r.value < j) && !(j < r.value);
    }
  }

  // ---------------------------------------------------------------------------
  // The decoder object: the buffer that survives from one read to the next.

  class StreamDecoder {
    var buffer: string

    constructor ()
      ensures buffer == ""
    {
      buffer := "";
    }

    /** One read: append the chunk, run the pass, return the `onChunk`
        payloads in call order and keep the unconsumed tail. */
    method Feed(chunk: string) returns (deltas: seq<string>)
      modifies this
      ensures deltas == Decoded(old(buffer) + chunk).deltas
      ensures buffer == Retained(old(buffer) + chunk)
    {
      buffer := buffer + chunk;
      var buf := buffer;
      var processedLength: nat := 0;
      deltas := [];
      var i := 0;
      while i < |buf|
        invariant buffer == buf
        invariant 0 <= i <= |buf|
        invariant Scan(buf, i) == ScanState(deltas, processedLength)
      {
        deltas, processedLength := Position(buf, i, deltas, processedLength);
        assert Scan(buf, i + 1) == ScanState(deltas, processedLength);
        i := i + 1;
      }
      assert Decoded(buf) == ScanState(deltas, processedLength);
      ScanBounds(buf, |buf|);
      if processedLength > 0 {
        buffer := buf[processedLength..];
      }
    }
  }
}
