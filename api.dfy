/** The request/response contract of `sendMessageToWeatherAgent`
    (src/services/api.ts): the chat messages and the request built from
    them, and the read loop that feeds every decoded chunk to the frame
    decoder and funnels every failure into one `onError` call.

    The network is not modelled: the response is given as its status and
    whether it has a body reader, and the body as the sequence of what each
    `reader.read()` produced (already decoded text, or a rejection). The two
    callbacks are modelled by the trace of calls the function makes. */
module Api {
  import opened Util
  import opened Frames

  datatype Sender = User | Bot

  /** `ChatMessage`; the timestamp is the creation instant in milliseconds. */
  datatype ChatMessage = ChatMessage(id: string, text: string, sender: Sender, timestamp: int)

  /** `WeatherAgentMessage`: role `user` or `assistant`. */
  datatype AgentMessage = AgentMessage(role: string, content: string)

  /** A decimal number `digits` × 10^-`scale` (the request's temperature). */
  datatype Decimal = Decimal(digits: int, scale: nat)

  /** `WeatherAgentRequest`; `runtimeContext` is always the empty object. */
  datatype AgentRequest = AgentRequest(
    messages: seq<AgentMessage>,
    runId: string,
    maxRetries: nat,
    maxSteps: nat,
    temperature: Decimal,
    topP: nat,
    runtimeContext: map<string, string>,
    threadId: string,
    resourceId: string)

  const ThreadId: string := "BE-ITC-57"
  const AgentName: string := "weatherAgent"

  // ---------------------------------------------------------------------------
  // Request builder.

  /** `messages.map(...)`: one agent message per chat message, in order; the
      role is `user` exactly for user messages and `assistant` otherwise, and
      the content is the message text. */
  function ToAgentMessages(msgs: seq<ChatMessage>): (r: seq<AgentMessage>)
    ensures |r| == |msgs|
    ensures forall k :: 0 <= k < |msgs| ==>
      && (r[k].role == "user" <==> msgs[k].sender == User)
      && (r[k].role == "user" || r[k].role == "assistant")
      && r[k].content == msgs[k].text
  {
    if msgs == [] then []
    else
      var role := if msgs[0].sender == User then "user" else "assistant";
      [AgentMessage(role, msgs[0].text)] + ToAgentMessages(msgs[1..])
  }

  /** The run parameters every request carries. */
  predicate FixedRunParameters(r: AgentRequest) {
    && r.runId == AgentName
    && r.maxRetries == 2
    && r.maxSteps == 5
    && r.temperature == Decimal(5, 1)
    && r.topP == 1
    && r.runtimeContext == map[]
    && r.threadId == ThreadId
    && r.resourceId == AgentName
  }

  function BuildRequest(msgs: seq<ChatMessage>): (r: AgentRequest)
    ensures r.messages == ToAgentMessages(msgs)
    ensures FixedRunParameters(r)
  {
    AgentRequest(ToAgentMessages(msgs), AgentName, 2, 5, Decimal(5, 1), 1, map[], ThreadId, AgentName)
  }

  /** The mapping works message by message: building from a longer
      conversation extends the request's message list and changes nothing
      already in it. */
  lemma {:induction false} ToAgentMessagesAppend(a: seq<ChatMessage>, b: seq<ChatMessage>)
    ensures ToAgentMessages(a + b) == ToAgentMessages(a) + ToAgentMessages(b)
  {
    if a != [] {
      assert (a + b)[1..] == a[1..] + b;
      ToAgentMessagesAppend(a[1..], b);
    } else {
      assert a + b == b;
    }
  }

  // ---------------------------------------------------------------------------
  // Response, body and callbacks.

  /** What `fetch` gives: a response, with `response.ok`, `response.status`
      and whether `response.body?.getReader()` gave a reader, or a rejection
      (the network failed) carrying the thrown value's message (None when
      the thrown value is not an `Error`). */
  datatype FetchResult =
    | Response(ok: bool, status: nat, hasReader: bool)
    | FetchRejected(reason: Option<string>)

  /** One `reader.read()`: decoded text, or a rejection carrying an error
      message (None when the thrown value is not an `Error`). */
  datatype ReadResult = Data(text: string) | ReadFailed(message: Option<string>)

  /** One call of a callback passed to `sendMessageToWeatherAgent`. */
  datatype Callback = OnChunk(chunk: string) | OnError(error: string)

  const HttpErrorPrefix: string := "HTTP error! status: "
  const NoReaderText: string := "No response body reader available"
  const FallbackErrorText: string := "Failed to get weather information"

  /** The message of the error thrown for a failed status: a fixed prefix,
      then the status in decimal, which reads back as the status. */
  function HttpErrorText(status: nat): (r: string)
    ensures |r| > |HttpErrorPrefix| && r[..|HttpErrorPrefix|] == HttpErrorPrefix
    ensures IsDigits(r[|HttpErrorPrefix|..]) && DecimalValue(r[|HttpErrorPrefix|..]) == status
  {
    NatToStringRoundTrip(status);
    var r := HttpErrorPrefix + NatToString(status);
    assert r[|HttpErrorPrefix|..] == NatToString(status);
    r
  }

  /** `error instanceof Error ? error.message : 'Failed to get weather
      information'`: an `Error`'s message is passed on verbatim, any other
      thrown value gives the fallback text. */
  function ErrorText(message: Option<string>): (r: string)
    ensures message.Some? ==> r == message.value
    ensures message.None? ==> r == FallbackErrorText
  {
    match message
    case Some(m) => m
    case None => FallbackErrorText
  }

  function ChunkCalls(deltas: seq<string>): (r: seq<Callback>)
    ensures |r| == |deltas|
    ensures forall k :: 0 <= k < |r| ==> r[k] == OnChunk(deltas[k])
  {
    if deltas == [] then [] else [OnChunk(deltas[0])] + ChunkCalls(deltas[1..])
  }

  /** Some read of `body` failed. */
  predicate SomeReadFails(body: seq<ReadResult>) {
    exists n :: 0 <= n < |body| && body[n].ReadFailed?
  }

  /** The trace ends with a call of `onError`. */
  predicate EndsInError(cbs: seq<Callback>) {
    cbs != [] && cbs[|cbs| - 1].OnError?
  }

  /** The callbacks the read loop makes from the buffer `buffer` on: each
      successful read is decoded and its payloads passed to `onChunk` in
      order; a failed read ends the loop with one `onError`. The trace ends
      in `onError` exactly when some read fails. */
  function ReadLoop(buffer: string, body: seq<ReadResult>): (r: seq<Callback>)
    ensures EndsInError(r) <==> SomeReadFails(body)
    decreases |body|
  {
    if body == [] then []
    else match body[0]
      case ReadFailed(m) => [OnError(ErrorText(m))]
      case Data(t) =>
        var rest := ReadLoop(Retained(buffer + t), body[1..]);
        ReadsAfterData(body);
        var r := ChunkCalls(Decoded(buffer + t).deltas) + rest;
        assert rest != [] ==> r[|r| - 1] == rest[|rest| - 1];
        r
  }

  /** A body that starts with a successful read has a failing read exactly
      when the rest of it does. */
  lemma ReadsAfterData(body: seq<ReadResult>)
    requires body != [] && body[0].Data?
    ensures SomeReadFails(body) <==> SomeReadFails(body[1..])
  {
    if SomeReadFails(body) {
      var n :| 0 <= n < |body| && body[n].ReadFailed?;
      assert body[1..][n - 1] == body[n];
    }
    if SomeReadFails(body[1..]) {
      var n :| 0 <= n < |body[1..]| && body[1..][n].ReadFailed?;
      assert body[n + 1] == body[1..][n];
    }
  }

  /** `fetch` rejected, the status was not ok, there was no reader, or some
      read failed: every way the call can throw. */
  predicate CallFails(fetched: FetchResult, body: seq<ReadResult>) {
    fetched.FetchRejected? || !fetched.ok || !fetched.hasReader || SomeReadFails(body)
  }

  /** All callbacks of one call of `sendMessageToWeatherAgent`: the call
      ends in `onError` exactly when it fails in one of these ways. */
  function AgentCallbacks(fetched: FetchResult, body: seq<ReadResult>): (r: seq<Callback>)
    ensures EndsInError(r) <==> CallFails(fetched, body)
  {
    match fetched
    case FetchRejected(m) => [OnError(ErrorText(m))]
    case Response(ok, status, hasReader) =>
      if !ok then [OnError(HttpErrorText(status))]
      else if !hasReader then [OnError(NoReaderText)]
      else ReadLoop("", body)
  }

  /** The call: build the request, check the response, then read and decode
      until the body ends or a read fails. */
  method SendToAgent(messages: seq<ChatMessage>, fetched: FetchResult, body: seq<ReadResult>)
    returns (request: AgentRequest, callbacks: seq<Callback>)
    ensures request == BuildRequest(messages)
    ensures callbacks == AgentCallbacks(fetched, body)
  {
    request := AgentRequest(ToAgentMessages(messages), AgentName, 2, 5, Decimal(5, 1), 1, map[], ThreadId, AgentName);
    if fetched.FetchRejected? {
      callbacks := [OnError(ErrorText(fetched.reason))];
      return;
    }
    if !fetched.ok {
      callbacks := [OnError(HttpErrorText(fetched.status))];
      return;
    }
    if !fetched.hasReader {
      callbacks := [OnError(NoReaderText)];
      return;
    }
    var decoder := new StreamDecoder();
    callbacks := [];
    var n := 0;
    while n < |body|
      invariant 0 <= n <= |body|
      invariant callbacks + ReadLoop(decoder.buffer, body[n..]) == ReadLoop("", body)
    {
      match body[n] {
        case ReadFailed(m) =>
          callbacks := callbacks + [OnError(ErrorText(m))];
          return;
        case Data(t) =>
          assert body[n..][1..] == body[n + 1..];
          var deltas := decoder.Feed(t);
          callbacks := callbacks + ChunkCalls(deltas);
      }
      n := n + 1;
    }
  }

  // ---------------------------------------------------------------------------
  // Properties of the callback trace.

  /** `onError` is called at most once and, when it is, nothing follows it;
      every `onChunk` carries a non-empty payload. */
  predicate WellFormedTrace(cbs: seq<Callback>) {
    && (forall k :: 0 <= k < |cbs| && cbs[k].OnError? ==> k == |cbs| - 1)
    && (forall k :: 0 <= k < |cbs| && cbs[k].OnChunk? ==> cbs[k].chunk != "")
  }

  lemma {:induction false} ReadLoopWellFormed(buffer: string, body: seq<ReadResult>)
    ensures WellFormedTrace(ReadLoop(buffer, body))
    decreases |body|
  {
    if body != [] && body[0].Data? {
      var whole := buffer + body[0].text;
      ScanBounds(whole, |whole|);
      ReadLoopWellFormed(Retained(whole), body[1..]);
      ChunksThenWellFormed(Decoded(whole).deltas, ReadLoop(Retained(whole), body[1..]));
    }
  }

  /** Non-empty chunks followed by a well-formed trace form a well-formed
      trace. */
  lemma {:induction false} ChunksThenWellFormed(deltas: seq<string>, rest: seq<Callback>)
    requires forall k :: 0 <= k < |deltas| ==> deltas[k] != ""
    requires WellFormedTrace(rest)
    ensures WellFormedTrace(ChunkCalls(deltas) + rest)
    decreases |deltas|
  {
    if deltas != [] {
      ChunksThenWellFormed(deltas[1..], rest);
      var tail := ChunkCalls(deltas[1..]) + rest;
      assert ChunkCalls(deltas) + rest == [OnChunk(deltas[0])] + tail;
      ChunkThenWellFormed(deltas[0], tail);
    }
  }

  lemma ChunkThenWellFormed(c: string, rest: seq<Callback>)
    requires c != "" && WellFormedTrace(rest)
    ensures WellFormedTrace([OnChunk(c)] + rest)
  {
    var all := [OnChunk(c)] + rest;
    forall k | 1 <= k < |all|
      ensures all[k] == rest[k - 1]
    {
    }
  }

  /** Whatever `fetch` gave and whatever the body, the callbacks form a
      well-formed trace: one terminal error at most, and no empty chunk. */
  lemma AgentCallbacksWellFormed(fetched: FetchResult, body: seq<ReadResult>)
    ensures WellFormedTrace(AgentCallbacks(fetched, body))
  {
    ReadLoopWellFormed("", body);
  }

  /** A rejected `fetch`, a failed status or a missing reader ends the call
      with exactly one `onError` carrying the reason, and no `onChunk`. */
  lemma TransportFailureReported(fetched: FetchResult, body: seq<ReadResult>)
    requires fetched.FetchRejected? || !fetched.ok || !fetched.hasReader
    ensures AgentCallbacks(fetched, body) ==
      [OnError(
        if fetched.FetchRejected? then ErrorText(fetched.reason)
        else if !fetched.ok then HttpErrorText(fetched.status)
        else NoReaderText)]
  {
  }
}
