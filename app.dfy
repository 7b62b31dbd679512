/** The conversation state of `App` (src/App.tsx): the `messages` list and
    the `isLoading` flag, the list updaters passed to `setMessages`, the send
    handler that sequences them around the agent call, the clear handler,
    and the text of a chat export.

    Each `setMessages` updater is a function from the old list to the new
    one; `Chat` applies them one after another, which is the order React
    applies them in. Message ids and timestamps, which the code takes from
    the clock and a random source, are parameters. */
module ChatApp {
  import opened Util
  import opened Api

  const ClearedText: string := "Chat cleared! Ask me about the weather in any city. \U{1F324}\U{FE0F}"
  const TroubleText: string :=
    "Sorry, I'm having trouble connecting to the weather service. Please try again later! \U{1F329}\U{FE0F}"

  const ErrorReplyPrefix: string := "Sorry, I encountered an error: "
  const ErrorReplySuffix: string := " Please try again! \U{1F614}"

  /** The text that replaces the bot message when `onError` is called: it
      quotes the error verbatim between a fixed opening and closing, so
      different errors give different replies. */
  function ErrorReply(error: string): (r: string)
    ensures |r| == |ErrorReplyPrefix| + |error| + |ErrorReplySuffix|
    ensures r[..|ErrorReplyPrefix|] == ErrorReplyPrefix
    ensures r[|ErrorReplyPrefix|..|ErrorReplyPrefix| + |error|] == error
  {
    ErrorReplyPrefix + error + ErrorReplySuffix
  }

  // ---------------------------------------------------------------------------
  // List updaters.

  /** `prev.map(msg => msg.id === id ? {...msg, text: msg.text + chunk} : msg)`:
      every message with that id gets the chunk appended; every other
      message, and every field but the text, is left as it was. */
  function AppendToMessage(msgs: seq<ChatMessage>, id: string, chunk: string): (r: seq<ChatMessage>)
    ensures |r| == |msgs|
    ensures forall k :: 0 <= k < |msgs| && msgs[k].id != id ==> r[k] == msgs[k]
    ensures forall k :: 0 <= k < |msgs| && msgs[k].id == id ==>
      r[k] == msgs[k].(text := msgs[k].text + chunk)
  {
    if msgs == [] then []
    else
      var head := if msgs[0].id == id then msgs[0].(text := msgs[0].text + chunk) else msgs[0];
      [head] + AppendToMessage(msgs[1..], id, chunk)
  }

  /** `prev.map(msg => msg.id === id ? {...msg, text} : msg)`: every message
      with that id has its text replaced outright, whatever it held. */
  function ReplaceMessageText(msgs: seq<ChatMessage>, id: string, text: string): (r: seq<ChatMessage>)
    ensures |r| == |msgs|
    ensures forall k :: 0 <= k < |msgs| && msgs[k].id != id ==> r[k] == msgs[k]
    ensures forall k :: 0 <= k < |msgs| && msgs[k].id == id ==> r[k] == msgs[k].(text := text)
  {
    if msgs == [] then []
    else
      var head := if msgs[0].id == id then msgs[0].(text := text) else msgs[0];
      [head] + ReplaceMessageText(msgs[1..], id, text)
  }

  /** `onChunk` called once per chunk, in order: the list keeps its length,
      and every message keeps its id, sender and timestamp. */
  function AppendChunks(msgs: seq<ChatMessage>, id: string, chunks: seq<string>): (r: seq<ChatMessage>)
    ensures |r| == |msgs|
    ensures forall k :: 0 <= k < |msgs| ==>
      r[k].id == msgs[k].id && r[k].sender == msgs[k].sender && r[k].timestamp == msgs[k].timestamp
    decreases |chunks|
  {
    if chunks == [] then msgs
    else AppendChunks(AppendToMessage(msgs, id, chunks[0]), id, chunks[1..])
  }

  /** The message with id `id` sits at index `at` and at no other index. */
  predicate OnlyAt(msgs: seq<ChatMessage>, id: string, at: nat) {
    at < |msgs| && msgs[at].id == id && forall k :: 0 <= k < |msgs| && k != at ==> msgs[k].id != id
  }

  /** Streaming chunks into the bot message gives it the chunks' concatenation
      after its old text, and leaves every other message as it was. */
  lemma {:induction false} AppendChunksAccumulate(msgs: seq<ChatMessage>, id: string, at: nat, chunks: seq<string>)
    requires OnlyAt(msgs, id, at)
    ensures var r := AppendChunks(msgs, id, chunks);
      && |r| == |msgs|
      && r[at] == msgs[at].(text := msgs[at].text + Concat(chunks))
      && forall k :: 0 <= k < |msgs| && k != at ==> r[k] == msgs[k]
    decreases |chunks|
  {
    if chunks == [] {
      assert msgs[at].text + "" == msgs[at].text;
    } else {
      var next := AppendToMessage(msgs, id, chunks[0]);
      AppendChunksAccumulate(next, id, at, chunks[1..]);
      assert msgs[at].text + chunks[0] + Concat(chunks[1..]) == msgs[at].text + Concat(chunks);
    }
  }

  /** The placeholder starts empty, so after chunks c1..cn its text is exactly
      c1 + ... + cn. */
  lemma PlaceholderCollectsChunks(msgs: seq<ChatMessage>, bot: ChatMessage, chunks: seq<string>)
    requires bot.text == "" && forall k :: 0 <= k < |msgs| ==> msgs[k].id != bot.id
    ensures AppendChunks(msgs + [bot], bot.id, chunks) == msgs + [bot.(text := Concat(chunks))]
  {
    var all := msgs + [bot];
    AppendChunksAccumulate(all, bot.id, |msgs|, chunks);
    assert "" + Concat(chunks) == Concat(chunks);
    var r := AppendChunks(all, bot.id, chunks);
    assert forall k :: 0 <= k < |msgs| ==> r[k] == all[k] == msgs[k];
  }

  /** The example deltas `Lon`, `don: `, `15°C` build `London: 15°C`. */
  lemma ExampleDeltasAssemble()
    ensures Concat(["Lon", "don: ", "15°C"]) == "London: 15°C"
  {
    var a, b, c := "Lon", "don: ", "15°C";
    assert [a, b, c][1..] == [b, c] && [b, c][1..] == [c] && [c][1..] == [];
    assert a + (b + (c + "")) == "London: 15°C";
  }

  // ---------------------------------------------------------------------------
  // The bot message after the callbacks of one call.

  /** The bot message's text after `cbs` have been applied to text `t`: a
      chunk is appended, an error replaces everything. */
  function Replay(t: string, cbs: seq<Callback>): (r: string)
    ensures (forall k :: 0 <= k < |cbs| ==> cbs[k].OnChunk?) ==> t <= r
    decreases |cbs|
  {
    if cbs == [] then t
    else match cbs[0]
      case OnChunk(c) => Replay(t + c, cbs[1..])
      case OnError(e) => Replay(ErrorReply(e), cbs[1..])
  }

  /** Without an error, the bot text is the old text followed by every chunk
      in order. */
  lemma {:induction false} ReplayChunks(t: string, deltas: seq<string>)
    ensures Replay(t, ChunkCalls(deltas)) == t + Concat(deltas)
    decreases |deltas|
  {
    if deltas == [] {
      assert t + "" == t;
    } else {
      var cbs, rest := ChunkCalls(deltas), ChunkCalls(deltas[1..]);
      assert Replay(t, cbs) == Replay(t + deltas[0], rest) by {
        assert cbs[0] == OnChunk(deltas[0]) && cbs[1..] == rest;
      }
      assert Replay(t + deltas[0], rest) == t + Concat(deltas) by {
        ReplayChunks(t + deltas[0], deltas[1..]);
        assert t + deltas[0] + Concat(deltas[1..]) == t + Concat(deltas);
      }
    }
  }

  /** An error at the end discards every chunk applied before it. */
  lemma {:induction false} ReplayErrorDiscards(t: string, cbs: seq<Callback>, e: string)
    ensures Replay(t, cbs + [OnError(e)]) == ErrorReply(e)
  {
    ReplaySnoc(t, cbs, OnError(e));
  }

  /** The bot message's final text: the callbacks' effect on the empty
      placeholder, or the connection-trouble text when the call itself
      rejected. */
  function FinalBotText(cbs: seq<Callback>, rejected: bool): (r: string)
    ensures rejected ==> r == TroubleText
    ensures !rejected && cbs != [] && cbs[|cbs| - 1].OnError? ==> r == ErrorReply(cbs[|cbs| - 1].error)
    ensures !rejected && (forall k :: 0 <= k < |cbs| ==> cbs[k].OnChunk?) ==> r == Concat(ChunkTexts(cbs))
  {
    if rejected then TroubleText
    else if cbs != [] && cbs[|cbs| - 1].OnError? then
      LastErrorWins(cbs);
      Replay("", cbs)
    else if forall k :: 0 <= k < |cbs| ==> cbs[k].OnChunk? then
      OnlyChunksConcatenate(cbs);
      Replay("", cbs)
    else Replay("", cbs)
  }

  /** What the user sees, for each outcome of the call: the trouble text
      when the call itself threw; the error reply, when `fetch` rejected,
      the status was bad, there was no reader or a read failed; and
      otherwise only chunks arrived and the reply is their concatenation. */
  lemma FinalBotTextCases(fetched: FetchResult, body: seq<ReadResult>, rejected: bool)
    ensures var cbs := AgentCallbacks(fetched, body);
      && (rejected ==> FinalBotText(cbs, rejected) == TroubleText)
      && (!rejected && CallFails(fetched, body) ==>
            FinalBotText(cbs, rejected) == ErrorReply(cbs[|cbs| - 1].error))
      && (!rejected && !CallFails(fetched, body) ==>
            (forall k :: 0 <= k < |cbs| ==> cbs[k].OnChunk?) &&
            FinalBotText(cbs, rejected) == Concat(ChunkTexts(cbs)))
  {
    var cbs := AgentCallbacks(fetched, body);
    if !CallFails(fetched, body) {
      AgentCallbacksWellFormed(fetched, body);
      forall k | 0 <= k < |cbs|
        ensures cbs[k].OnChunk?
      {
        assert cbs[k].OnError? ==> EndsInError(cbs);
      }
    }
  }

  /** The payloads of a trace made only of chunks. */
  function ChunkTexts(cbs: seq<Callback>): (texts: seq<string>)
    requires forall k :: 0 <= k < |cbs| ==> cbs[k].OnChunk?
    ensures |texts| == |cbs| && ChunkCalls(texts) == cbs
  {
    seq(|cbs|, k requires 0 <= k < |cbs| => cbs[k].chunk)
  }

  /** A trace ending in an error leaves the error reply. */
  lemma LastErrorWins(cbs: seq<Callback>)
    requires cbs != [] && cbs[|cbs| - 1].OnError?
    ensures Replay("", cbs) == ErrorReply(cbs[|cbs| - 1].error)
  {
    var init, e := cbs[..|cbs| - 1], cbs[|cbs| - 1].error;
    ReplayErrorDiscards("", init, e);
    assert init + [OnError(e)] == cbs;
  }

  /** A trace of chunks only leaves their concatenation. */
  lemma OnlyChunksConcatenate(cbs: seq<Callback>)
    requires forall k :: 0 <= k < |cbs| ==> cbs[k].OnChunk?
    ensures Replay("", cbs) == Concat(ChunkTexts(cbs))
  {
    ReplayChunks("", ChunkTexts(cbs));
    assert "" + Concat(ChunkTexts(cbs)) == Concat(ChunkTexts(cbs));
  }

  // ---------------------------------------------------------------------------
  // Export.

  /** `msg.sender === 'user' ? 'You' : 'Weather Agent'`. */
  function SenderLabel(s: Sender): (r: string)
    ensures r == "You" <==> s == User
    ensures s == Bot ==> r == "Weather Agent"
  {
    if s == User then "You" else "Weather Agent"
  }

  /** One exported line; `localeTime` renders a timestamp as
      `toLocaleString` would. */
  function ExportLine(m: ChatMessage, localeTime: int -> string): (line: string)
    ensures |line| > |m.text| && line[0] == '[' && line[|line| - |m.text|..] == m.text
  {
    "[" + localeTime(m.timestamp) + "] " + SenderLabel(m.sender) + ": " + m.text
  }

  function ExportLines(msgs: seq<ChatMessage>, localeTime: int -> string): (lines: seq<string>)
    ensures |lines| == |msgs|
    ensures forall k :: 0 <= k < |msgs| ==> lines[k] == ExportLine(msgs[k], localeTime)
  {
    seq(|msgs|, k requires 0 <= k < |msgs| => ExportLine(msgs[k], localeTime))
  }

  /** The whole export: the lines joined by a blank line. */
  function ExportText(msgs: seq<ChatMessage>, localeTime: int -> string): (r: string)
    ensures msgs == [] ==> r == ""
    ensures msgs != [] ==> ExportLine(msgs[0], localeTime) <= r
  {
    Join(ExportLines(msgs, localeTime), "\n\n")
  }

  /** Exporting one more message appends a blank line and its line, and
      nothing else. */
  lemma ExportSnoc(msgs: seq<ChatMessage>, m: ChatMessage, localeTime: int -> string)
    requires msgs != []
    ensures ExportText(msgs + [m], localeTime) == ExportText(msgs, localeTime) + "\n\n" + ExportLine(m, localeTime)
  {
    assert ExportLines(msgs + [m], localeTime) == ExportLines(msgs, localeTime) + [ExportLine(m, localeTime)];
    JoinSnoc(ExportLines(msgs, localeTime), ExportLine(m, localeTime), "\n\n");
  }

  /** The export holds every line's characters plus two per separator. */
  lemma ExportLength(msgs: seq<ChatMessage>, localeTime: int -> string)
    requires msgs != []
    ensures |ExportText(msgs, localeTime)| == TotalLength(ExportLines(msgs, localeTime)) + 2 * (|msgs| - 1)
  {
    JoinLength(ExportLines(msgs, localeTime), "\n\n");
  }

  // ---------------------------------------------------------------------------
  // The component's state.

  class Chat {
    var messages: seq<ChatMessage>
    var isLoading: bool

    constructor ()
      ensures messages == [] && !isLoading
    {
      messages := [];
      isLoading := false;
    }

    /** `handleSendMessage`: append the user message and the empty bot
        placeholder, call the agent with the conversation up to the user
        message, apply each callback to the placeholder, and end loading on
        every path. `rejected` says whether the awaited call itself threw. */
    method SendMessage(messageText: string, userId: string, userTime: int, botId: string, botTime: int,
                       fetched: FetchResult, body: seq<ReadResult>, rejected: bool)
      returns (request: AgentRequest)
      requires botId != userId
      requires forall k :: 0 <= k < |messages| ==> messages[k].id != botId
      modifies this
      ensures request.messages == ToAgentMessages(old(messages)) + [AgentMessage("user", messageText)]
      ensures FixedRunParameters(request)
      ensures messages == old(messages) + [
        ChatMessage(userId, messageText, User, userTime),
        ChatMessage(botId, FinalBotText(AgentCallbacks(fetched, body), rejected), Bot, botTime)]
      ensures !isLoading
    {
      var history := messages;
      var userMessage := ChatMessage(userId, messageText, User, userTime);
      var botMessage := ChatMessage(botId, "", Bot, botTime);
      Start(userMessage, botMessage);

      var allMessages := history + [userMessage];
      var callbacks;
      request, callbacks := SendToAgent(allMessages, fetched, body);
      UserTurnRequest(history, userMessage);

      Finish(allMessages, botMessage, callbacks, rejected);
      assert allMessages + [botMessage.(text := FinalBotText(callbacks, rejected))]
          == history + [userMessage, botMessage.(text := FinalBotText(callbacks, rejected))];
    }

    /** The first two updates of a send: the user message is appended, loading
        starts, and the empty bot placeholder is appended after it. */
    method Start(userMessage: ChatMessage, botMessage: ChatMessage)
      modifies this
      ensures messages == old(messages) + [userMessage, botMessage]
      ensures isLoading
    {
      messages := messages + [userMessage];
      isLoading := true;
      messages := messages + [botMessage];
    }

    /** The `try`/`catch`/`finally` of a send: the callbacks rewrite the bot
        message (the last one) in order, a throw replaces its text with the
        trouble text, and loading ends. */
    method Finish(ghost prefix: seq<ChatMessage>, ghost bot: ChatMessage, callbacks: seq<Callback>, rejected: bool)
      requires messages == prefix + [bot]
      requires forall k :: 0 <= k < |prefix| ==> prefix[k].id != bot.id
      requires bot.text == ""
      modifies this
      ensures messages == prefix + [bot.(text := FinalBotText(callbacks, rejected))]
      ensures !isLoading
    {
      ApplyCallbacks(prefix, bot, callbacks);
      if rejected {
        ConnectionTrouble(prefix, bot.(text := Replay("", callbacks)));
      }
      isLoading := false;
    }

    /** The `onChunk` and `onError` closures of one send, called in order:
        each rewrites the bot message (the last one) and nothing else. */
    method ApplyCallbacks(ghost prefix: seq<ChatMessage>, ghost bot: ChatMessage, callbacks: seq<Callback>)
      requires messages == prefix + [bot]
      requires forall k :: 0 <= k < |prefix| ==> prefix[k].id != bot.id
      modifies this
      ensures messages == prefix + [bot.(text := Replay(bot.text, callbacks))]
      ensures isLoading == old(isLoading)
    {
      var botId := messages[|messages| - 1].id;
      var n := 0;
      while n < |callbacks|
        invariant 0 <= n <= |callbacks|
        invariant messages == prefix + [bot.(text := Replay(bot.text, callbacks[..n]))]
        invariant isLoading == old(isLoading)
      {
        CallbackStep(prefix, bot, callbacks, n);
        messages := ApplyCallback(messages, botId, callbacks[n]);
        n := n + 1;
      }
      assert callbacks[..|callbacks|] == callbacks;
    }

    /** The `catch` updater: the bot message (the last one) gets the fixed
        connection-trouble text, whatever it held, and nothing else changes. */
    method ConnectionTrouble(ghost prefix: seq<ChatMessage>, ghost bot: ChatMessage)
      requires messages == prefix + [bot]
      requires forall k :: 0 <= k < |prefix| ==> prefix[k].id != bot.id
      modifies this
      ensures messages == prefix + [bot.(text := TroubleText)]
      ensures isLoading == old(isLoading)
    {
      var botId := messages[|messages| - 1].id;
      ReplaceLast(prefix, bot, TroubleText);
      messages := ReplaceMessageText(messages, botId, TroubleText);
    }

    /** `handleClearChat`: the list becomes the single bot message saying the
        chat was cleared; loading is untouched. */
    method ClearChat(id: string, time: int)
      modifies this
      ensures messages == [ChatMessage(id, ClearedText, Bot, time)]
      ensures isLoading == old(isLoading)
    {
      messages := [ChatMessage(id, ClearedText, Bot, time)];
    }
  }

  /** The agent sees the conversation before the send plus the user
      message, sent with the user role. */
  lemma UserTurnRequest(history: seq<ChatMessage>, userMessage: ChatMessage)
    requires userMessage.sender == User
    ensures ToAgentMessages(history + [userMessage])
      == ToAgentMessages(history) + [AgentMessage("user", userMessage.text)]
  {
    ToAgentMessagesAppend(history, [userMessage]);
  }

  /** The `setMessages` call each callback makes for the message `id`. */
  function ApplyCallback(msgs: seq<ChatMessage>, id: string, cb: Callback): (r: seq<ChatMessage>)
    ensures |r| == |msgs|
    ensures forall k :: 0 <= k < |msgs| && msgs[k].id != id ==> r[k] == msgs[k]
    ensures forall k :: 0 <= k < |msgs| ==> r[k].id == msgs[k].id && r[k].sender == msgs[k].sender
  {
    match cb
    case OnChunk(c) => AppendToMessage(msgs, id, c)
    case OnError(e) => ReplaceMessageText(msgs, id, ErrorReply(e))
  }

  /** When the target is the last message and its id occurs nowhere before
      it, appending a chunk rewrites that message's text and nothing else. */
  lemma AppendToLast(prefix: seq<ChatMessage>, last: ChatMessage, chunk: string)
    requires forall k :: 0 <= k < |prefix| ==> prefix[k].id != last.id
    ensures AppendToMessage(prefix + [last], last.id, chunk) == prefix + [last.(text := last.text + chunk)]
  {
    var all := prefix + [last];
    var r := AppendToMessage(all, last.id, chunk);
    var want := prefix + [last.(text := last.text + chunk)];
    forall k | 0 <= k < |all|
      ensures r[k] == want[k]
    {
      if k < |prefix| {
        assert all[k] == prefix[k];
      }
    }
  }

  /** Likewise, replacing the last message's text touches nothing else. */
  lemma ReplaceLast(prefix: seq<ChatMessage>, last: ChatMessage, text: string)
    requires forall k :: 0 <= k < |prefix| ==> prefix[k].id != last.id
    ensures ReplaceMessageText(prefix + [last], last.id, text) == prefix + [last.(text := text)]
  {
    var all := prefix + [last];
    var r := ReplaceMessageText(all, last.id, text);
    var want := prefix + [last.(text := text)];
    forall k | 0 <= k < |all|
      ensures r[k] == want[k]
    {
      if k < |prefix| {
        assert all[k] == prefix[k];
      }
    }
  }

  /** Applying callback `n` to the list whose last message holds the replay
      of the first `n` callbacks gives the replay of the first `n + 1`. */
  lemma CallbackStep(prefix: seq<ChatMessage>, bot: ChatMessage, cbs: seq<Callback>, n: nat)
    requires n < |cbs|
    requires forall k :: 0 <= k < |prefix| ==> prefix[k].id != bot.id
    ensures ApplyCallback(prefix + [bot.(text := Replay(bot.text, cbs[..n]))], bot.id, cbs[n])
      == prefix + [bot.(text := Replay(bot.text, cbs[..n + 1]))]
  {
    var current := bot.(text := Replay(bot.text, cbs[..n]));
    ReplayStep(bot.text, cbs, n);
    match cbs[n] {
      case OnChunk(c) => AppendToLast(prefix, current, c);
      case OnError(e) => ReplaceLast(prefix, current, ErrorReply(e));
    }
  }

  /** Applying one more callback is one more step of `Replay`. */
  lemma {:induction false} ReplayStep(t: string, cbs: seq<Callback>, n: nat)
    requires n < |cbs|
    ensures Replay(t, cbs[..n + 1]) ==
      match cbs[n]
      case OnChunk(c) => Replay(t, cbs[..n]) + c
      case OnError(e) => ErrorReply(e)
  {
    ReplaySnoc(t, cbs[..n], cbs[n]);
    assert cbs[..n + 1] == cbs[..n] + [cbs[n]];
  }

  lemma {:induction false} ReplaySnoc(t: string, cbs: seq<Callback>, cb: Callback)
    ensures Replay(t, cbs + [cb]) ==
      match cb
      case OnChunk(c) => Replay(t, cbs) + c
      case OnError(e) => ErrorReply(e)
    decreases |cbs|
  {
    if cbs == [] {
      assert cbs + [cb] == [cb];
    } else {
      assert (cbs + [cb])[1..] == cbs[1..] + [cb];
      match cbs[0]
      case OnChunk(c) => ReplaySnoc(t + c, cbs[1..], cb);
      case OnError(e) => ReplaySnoc(ErrorReply(e), cbs[1..], cb);
    }
  }
}
