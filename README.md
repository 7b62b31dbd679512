# Weather agent chat — a verified model of its core

The weather agent chat is a browser client. The user types a question, the
client posts the whole conversation to a hosted "weather agent", and the
reply streams back over one HTTP response. This project models, in Dafny,
the parts of the client that decide what the user ends up seeing:

- **The streaming frame decoder** of `sendMessageToWeatherAgent`
  (`Frames`, `FrameFacts`). The response body is a line-free protocol of
  frames. `0:"…"` carries text. `f:{"messageId"…}` carries metadata.
  `9:{…}` and `a:{…}` are brace-balanced tool frames.
  `e:{"finishReason"…}` and `d:{"finishReason"…}` are finish signals.
  `Frames.StreamDecoder` holds the retained `buffer`. Its `Feed` method is
  the scan loop of one read, with its inner loops as the helper methods
  `ReadText`, `SkipToClose` and `MatchBraces`. It is proved equal to a
  position-by-position specification (`Classify`, `ScanText`, `FirstClose`,
  `BraceMatch`, `FrameAt`, `Scan`), and the properties of one pass are
  proved about that specification. The code's quirks are modelled as
  written, and each is shown by a concrete lemma:
  - Un-escaping keeps the character after a backslash literally.
  - After a frame, the scan goes on at the next position, so text inside a
    payload is classified again.
  - The consumed offset is overwritten by the last frame that completes,
    which can move it backwards.
  - As a result, the output depends on where the stream is split.
- **The request and the error funnel** (`Api`). The request is built from
  the conversation with its fixed run parameters. A read loop feeds each
  decoded chunk to the decoder. A rejected `fetch`, an HTTP error, a
  missing body reader or a failed read ends the call with exactly one
  `onError`. The two callbacks are modelled by the trace of calls the
  function makes. `ApiFacts` shows that a body of whole text frames
  whose payloads contain no `:` reaches `onChunk` payload for payload,
  and that with a `:` in a payload even whole frames can produce a
  spurious chunk.
- **The conversation state** (`ChatApp`). The `setMessages` updaters are
  functions from list to list. `Chat` holds `messages` and `isLoading`, and
  its methods are the send handler and the clear handler. The text of a
  chat export is also modelled here.
- **The message bubble** (`Bubble`). It covers the keyword-driven weather
  icon, the rule that only bot messages get one, and the relative age
  label.

`Util` holds what these share: decimal rendering of whole numbers,
`join`, `includes` and ASCII lower-casing.

## Model

| member | source | states |
|---|---|---|
| `Util.NatToString` | src/services/api.ts:64 | `${n}` of a whole number is a non-empty digit string with no leading zero |
| `Util.NatToStringRoundTrip` | src/services/api.ts:64 | reading the rendered digits back gives the number |
| `Util.NatToStringInjective` | src/components/MessageBubble.tsx:34-35 | distinct counts render as distinct labels |
| `Util.JoinSnoc` | src/App.tsx:130 | joining one more line adds one separator and that line |
| `Util.JoinLength` | src/App.tsx:130 | a join of n lines has the lines' characters plus n - 1 separators |
| `Util.Join` | src/App.tsx:130 | no lines join to the empty string, and a join starts with its first line |
| `Util.Concat` | src/App.tsx:75 | the concatenation of the chunks is as long as all of them together |
| `Util.ContainsIffWindow` | src/components/MessageBubble.tsx:17-25 | `includes` holds exactly when some window of the text equals the word |
| `Util.ContainsAt` | src/components/MessageBubble.tsx:17-25 | a word present at a known offset is found |
| `Util.Contains` | src/components/MessageBubble.tsx:17-25 | a word is found only in a text at least as long, and the empty word is found everywhere |
| `Util.MissingCharNotContained` | src/components/MessageBubble.tsx:17-25 | a word holding a character the text lacks is not found |
| `Util.ToLower` | src/components/MessageBubble.tsx:16 | lower-casing keeps the length and maps each character on its own |
| `Util.ToLowerIdempotent` | src/components/MessageBubble.tsx:16 | lower-casing twice is lower-casing once |
| `Frames.Classify` | src/services/api.ts:89-147 | every recognised start has `:` as its second character; text starts exactly at `0:"`; metadata exactly at `f:{"messageId"`; tool frames exactly at `9:`/`a:`; finish frames exactly at `e:{"finishReason"` or `d:{"finishReason"` |
| `Frames.ScanText` | src/services/api.ts:94-112 | a closed text frame ends at a `"` at or after the start, and its payload extends the text gathered so far by at most the characters scanned |
| `Frames.ScanTextEscaped` | src/services/api.ts:94-112 | for any choice of escaped positions (quote and backslash always), an escaped payload followed by a quote is read back as exactly that payload: each escaping backslash is dropped and the next character kept; the frame closes at that quote |
| `Frames.ScanTextClosedIsEscaped` | src/services/api.ts:94-112 | conversely, whenever the text loop closes, what it read before the closing quote is an escaping of the payload it gathered, so the close is the first quote no backslash escapes |
| `Frames.FirstClose` | src/services/api.ts:116-118 | it finds the first `}` at or after the start, or reports that none exists |
| `Frames.BraceMatchBalanced` | src/services/api.ts:122-134 | brace matching stops where the count returns to zero, and at the first such `}` |
| `Frames.BraceMatchEndBalances` | src/services/api.ts:122-134 | where brace matching stops, the count has returned to zero |
| `Frames.BraceMatchReachesBalance` | src/services/api.ts:122-134 | brace matching stops at or before every `}` where the count returns to zero |
| `Frames.BraceMatch` | src/services/api.ts:122-134 | a match is a `}` at or after the start |
| `Frames.ToolFrameEnd` | src/services/api.ts:121-135 | a tool frame closes at the first `}` at which braces counted from two past its start balance |
| `Frames.FrameAt` | src/services/api.ts:86-147 | a completed frame ends after its start and within the buffer |
| `Frames.Advance` | src/services/api.ts:102-146 | an incomplete position changes nothing; a completed frame sets the offset to its end and adds at most its one payload, keeping the earlier ones |
| `Frames.Scan` | src/services/api.ts:84-148 | after n positions at most n payloads were emitted |
| `Frames.Decoded` | src/services/api.ts:84-148 | one pass emits at most one payload per position of the buffer |
| `Frames.Retained` | src/services/api.ts:150-152 | the kept buffer is a suffix of the buffer |
| `Frames.ScanBounds` | src/services/api.ts:84-148 | the offset stays within the buffer, every emitted chunk is non-empty, and the offset is zero exactly when no frame completed |
| `Frames.RetainedIsSuffix` | src/services/api.ts:150-152 | the kept buffer is the whole buffer when nothing completed, otherwise what follows the offset, and always a suffix |
| `Frames.ProcessedIsLastCompletion` | src/services/api.ts:105-146 | the offset after the pass is the end of the last frame to complete, not the furthest |
| `Frames.EmitStarts` | src/services/api.ts:86-103 | the emitting positions lie within the scanned prefix |
| `Frames.DeltasInStartOrder` | src/services/api.ts:86-103 | `onChunk` calls follow increasing frame start, each carrying that text frame's payload |
| `Frames.TextFrameStep` | src/services/api.ts:89-112 | a closed text frame emits its non-empty payload and moves the offset past its quote; an unclosed one changes nothing |
| `Frames.SkippedFrameStep` | src/services/api.ts:115-147 | metadata and finish frames emit nothing and consume through the first `}`, or change nothing without one |
| `Frames.ToolFrameStep` | src/services/api.ts:121-135 | a tool frame emits nothing and consumes through its balancing `}`, or changes nothing |
| `Frames.ReadText` | src/services/api.ts:90-112 | the text loop reports the same closing quote and payload as the specification |
| `Frames.SkipToClose` | src/services/api.ts:116-117 | the skip loop stops at the first `}` or at the buffer's end |
| `Frames.SkipToCloseIsFirstClose` | src/services/api.ts:116-118 | the skip loop and `FirstClose` agree |
| `Frames.MatchBraces` | src/services/api.ts:122-134 | the brace loop agrees with `BraceMatch` |
| `Frames.SkipFrame` | src/services/api.ts:115-118 | a metadata or finish frame moves the offset past the first `}`, or leaves it when there is none |
| `Frames.Position` | src/services/api.ts:86-147 | one iteration of the scan loop changes the payloads and the offset exactly as that position's frame specifies |
| `Frames.StreamDecoder.constructor` | src/services/api.ts:73 | the buffer starts empty |
| `Frames.StreamDecoder.Feed` | src/services/api.ts:82-152 | one read emits the decoded payloads of old buffer plus chunk, and keeps exactly the retained suffix |
| `FrameFacts.TextFrameOf` | src/services/api.ts:89-112 | a text frame is its escaped payload plus four framing characters |
| `Frames.EscapeWith` | src/services/api.ts:94-110 | escaping never shortens the payload; each position is escaped or not on its own |
| `FrameFacts.SingleTextFrame` | src/services/api.ts:89-112 | a lone text frame whose payload has no `:` yields that payload (nothing if empty), whichever positions were escaped, and is consumed entirely |
| `FrameFacts.MixedEscapes` | src/services/api.ts:94-110 | in `\nn` the same letter is escaped once and plain once, and the frame decodes to `nn` |
| `FrameFacts.BackslashKeepsNextCharacter` | src/services/api.ts:95-110 | `\n` in a payload is read as the letter `n` |
| `FrameFacts.ScanTextPlain` | src/services/api.ts:94-112 | a run of characters with no backslash or quote, ended by a quote, is copied into the payload unchanged |
| `FrameFacts.ProcessedCanMoveBack` | src/services/api.ts:86-135 | `0:"a:{}"` emits `a:{}` and then re-reads `a:{}` as a tool frame, so the offset moves back from 8 to 7 and the quote is kept |
| `FrameFacts.SplitChangesOutput` | src/services/api.ts:82-152 | `0:"0:"0:"b"` in one read emits three payloads; split after the first frame it emits two |
| `FrameFacts.WholeStreamFrames` | src/services/api.ts:89-112 | in `0:"0:"0:"b"` the text frames at 0, 3 and 6 close at the next quote each |
| `FrameFacts.WholeStream` | src/services/api.ts:82-148 | `0:"0:"0:"b"` in one read emits `0:`, `0:`, `b` |
| `FrameFacts.FrameWithInnerToolFrame` | src/services/api.ts:82-152 | the whole frame `0:"9:{}0:"` is emitted, but the inner tool frame `9:{}` completes last, so `0:"` is kept |
| `FrameFacts.KeptStartAndNextFrame` | src/services/api.ts:82-152 | the kept `0:"` before the frame `0:"b"` emits `0:` and then `b`, and keeps nothing |
| `FrameFacts.FirstPart` | src/services/api.ts:82-152 | `0:"0:"` emits `0:` alone and keeps nothing, as the second start finds no closing quote |
| `FrameFacts.ToolFrameSkipped` | src/services/api.ts:121-135 | `9:{"a":{"b":1}}` is consumed through its outer `}` with no output, and what follows is kept |
| `FrameFacts.BraceMatchSkipsPlain` | src/services/api.ts:122-134 | characters other than braces leave the brace count unchanged |
| `FrameFacts.NestedBraces` | src/services/api.ts:122-134 | the braces of `9:{"a":{"b":1}}` balance at the outer `}` |
| `Api.ToAgentMessages` | src/services/api.ts:34-37 | one agent message per chat message in order; role `user` exactly for user messages, `assistant` otherwise; content is the text |
| `Api.BuildRequest` | src/services/api.ts:39-49 | the request carries the mapped messages and the fixed run parameters |
| `Api.ToAgentMessagesAppend` | src/services/api.ts:34-37 | mapping a longer conversation extends the mapped list and changes nothing in it |
| `Api.ChunkCalls` | src/services/api.ts:102-104 | one `onChunk` per payload, in order |
| `Api.HttpErrorText` | src/services/api.ts:63-65 | the message is `HTTP error! status: ` followed by decimal digits that read back as the status |
| `Api.ErrorText` | src/services/api.ts:158-160 | an `Error`'s message is passed on verbatim; any other thrown value gives `Failed to get weather information` |
| `Api.ReadLoop` | src/services/api.ts:75-153 | the read loop's callbacks end in `onError` exactly when some read fails |
| `Api.ReadsAfterData` | src/services/api.ts:76-80 | after a successful read, a later read fails exactly when one of the remaining reads does |
| `Api.AgentCallbacks` | src/services/api.ts:51-161 | the call ends in `onError` exactly when `fetch` rejects, the status is bad, there is no reader, or a read fails |
| `Api.SendToAgent` | src/services/api.ts:28-162 | the call builds the request and makes exactly the callbacks of the specification, for every response and body |
| `Api.ReadLoopWellFormed` | src/services/api.ts:75-161 | the read loop calls `onError` at most once and last, and never `onChunk` with empty text |
| `Api.ChunksThenWellFormed` | src/services/api.ts:102-104 | non-empty chunks before a well-formed trace keep it well-formed |
| `Api.AgentCallbacksWellFormed` | src/services/api.ts:51-161 | the same holds for the whole call, a rejected `fetch` included |
| `Api.TransportFailureReported` | src/services/api.ts:51-70 | a rejected `fetch`, a failed status or a missing reader ends with exactly one `onError` carrying its message and no `onChunk` |
| `ApiFacts.NonEmpty` | src/services/api.ts:102-104 | the payloads passed on are all non-empty |
| `ApiFacts.TextFrameReads` | src/services/api.ts:76-80 | a body of one read per payload, each read the payload's text frame, escaped at any chosen positions |
| `ApiFacts.ReadLoopOfTextFrames` | src/services/api.ts:76-112 | a body of one text frame per read, with no `:` in any payload, reaches `onChunk` as those payloads in order, empty ones skipped, whichever positions were escaped |
| `ApiFacts.WholeFramesSpuriousChunk` | src/services/api.ts:76-152 | the whole frames `0:"9:{}0:"` and `0:"b"`, one per read, reach `onChunk` as `9:{}0:`, `0:`, `b` |
| `ApiFacts.ChunkCallsAppend` | src/services/api.ts:102-104 | the chunk calls of two payload lists follow each other |
| `ChatApp.AppendToMessage` | src/App.tsx:73-77 | the message with the id gets the chunk appended; the length and every other message are unchanged |
| `ChatApp.ReplaceMessageText` | src/App.tsx:81-85 | the message with the id has its text replaced whatever it held; nothing else changes |
| `ChatApp.ErrorReply` | src/App.tsx:83 | the reply quotes the error verbatim between a fixed opening and closing |
| `ChatApp.AppendChunks` | src/App.tsx:71-77 | streaming chunks keeps the list's length and every message's id, sender and timestamp |
| `ChatApp.ApplyCallback` | src/App.tsx:71-85 | a callback changes only the messages with the bot id, and keeps every id and sender |
| `ChatApp.AppendChunksAccumulate` | src/App.tsx:73-77 | chunks applied in order append their concatenation to the target and leave the rest alone |
| `ChatApp.PlaceholderCollectsChunks` | src/App.tsx:56-77 | from the empty placeholder, chunks c1..cn give exactly c1 + … + cn |
| `ChatApp.ExampleDeltasAssemble` | src/App.tsx:73-77 | `Lon`, `don: `, `15°C` assemble to `London: 15°C` |
| `ChatApp.ReplayChunks` | src/App.tsx:71-77 | without an error the bot text is its old text followed by every chunk |
| `ChatApp.Replay` | src/App.tsx:71-85 | with no error among the callbacks, the old text stays at the front |
| `ChatApp.ReplayErrorDiscards` | src/App.tsx:79-85 | an error replaces the bot text entirely, discarding streamed chunks |
| `ChatApp.FinalBotTextCases` | src/App.tsx:68-105 | the final bot text is the trouble text if the call threw; the error reply if `fetch` rejected, the status was bad, there was no reader or a read failed; otherwise the trace holds only chunks and the text is their concatenation |
| `ChatApp.FinalBotText` | src/App.tsx:68-105 | the trouble text if the call threw; otherwise the error reply when the trace ends in an error, and the chunks' concatenation when it holds only chunks |
| `ChatApp.ChunkTexts` | src/App.tsx:71-77 | a trace of chunks only is exactly the chunk calls of its payloads |
| `ChatApp.LastErrorWins` | src/App.tsx:79-85 | a trace ending in an error leaves the error reply |
| `ChatApp.OnlyChunksConcatenate` | src/App.tsx:71-77 | a trace of chunks only leaves their concatenation |
| `ChatApp.SenderLabel` | src/App.tsx:129 | the label is `You` exactly for user messages and `Weather Agent` for bot messages |
| `ChatApp.ExportLines` | src/App.tsx:128-129 | one export line per message, in order |
| `ChatApp.ExportLine` | src/App.tsx:129 | a line opens with `[` and ends with the message text |
| `ChatApp.ExportText` | src/App.tsx:128-130 | no messages export as the empty text; otherwise the export starts with the first message's line |
| `ChatApp.ExportSnoc` | src/App.tsx:128-130 | exporting one more message appends a blank line and its line |
| `ChatApp.ExportLength` | src/App.tsx:128-130 | the export is the lines plus two characters per separator |
| `ChatApp.Chat.constructor` | src/App.tsx:9-10 | the chat starts with no messages and not loading |
| `ChatApp.Chat.SendMessage` | src/App.tsx:37-106 | a send appends the user message and one bot message whose text is the final bot text; the agent sees the old list plus the user message; loading ends false |
| `ChatApp.Chat.Start` | src/App.tsx:46-63 | the user message and then the empty bot message are appended; loading starts |
| `ChatApp.Chat.Finish` | src/App.tsx:68-105 | only the bot message changes, to the final bot text; loading ends |
| `ChatApp.Chat.ConnectionTrouble` | src/App.tsx:97-102 | the bot message gets the trouble text whatever it held; nothing else changes |
| `ChatApp.Chat.ApplyCallbacks` | src/App.tsx:69-91 | the callbacks rewrite only the bot message, to the replay of the trace on its text |
| `ChatApp.Chat.ClearChat` | src/App.tsx:108-115 | the list becomes the one fixed "Chat cleared!" bot message |
| `ChatApp.AppendToLast` | src/App.tsx:73-77 | with a unique id, appending to the last message touches only it |
| `ChatApp.ReplaceLast` | src/App.tsx:98-102 | with a unique id, replacing the last message's text touches only it |
| `ChatApp.ReplayStep` | src/App.tsx:71-85 | one more callback is one more replay step |
| `ChatApp.ReplaySnoc` | src/App.tsx:71-85 | a chunk at the end appends; an error at the end replaces |
| `ChatApp.CallbackStep` | src/App.tsx:71-85 | applying callback n to the list after n callbacks gives the list after n + 1 |
| `ChatApp.UserTurnRequest` | src/App.tsx:66 | the agent gets the earlier conversation plus the new user message in the user role |
| `Bubble.Rule` | src/components/MessageBubble.tsx:17-25 | every keyword group gives a non-empty icon |
| `Bubble.WeatherIcon` | src/components/MessageBubble.tsx:15-27 | the icon is one of the nine weather icons or the empty string; `WeatherIconIsFirstMatch` says which |
| `Bubble.FirstRuleIconSpec` | src/components/MessageBubble.tsx:15-27 | the table gives no icon exactly when no group matches, otherwise the first matching group's icon |
| `Bubble.WeatherIconIsFirstMatch` | src/components/MessageBubble.tsx:15-27 | the keyword chain equals the table read in source order: first matching group wins, none gives the empty string |
| `Bubble.EarlyGroups` | src/components/MessageBubble.tsx:17-21 | the first five groups are tried in source order |
| `Bubble.LateGroups` | src/components/MessageBubble.tsx:22-26 | the last four groups are tried in source order, and no match gives the empty string |
| `Bubble.IconOfFirstMatch` | src/components/MessageBubble.tsx:15-27 | the icon is the icon of the first matching group |
| `Bubble.WeatherIconIgnoresCase` | src/components/MessageBubble.tsx:16 | the icon depends only on the lower-cased text |
| `Bubble.UnclearIsSunny` | src/components/MessageBubble.tsx:17 | "Unclear" gets the sun, as keywords match inside words |
| `Bubble.SnowstormIsSnow` | src/components/MessageBubble.tsx:17-21 | "snowstorm" gets the snowflake: snow is tried before storm |
| `Bubble.RainbowIsRain` | src/components/MessageBubble.tsx:17-19 | "rainbow" gets the rain cloud |
| `Bubble.SnowBeforeStorm` | src/components/MessageBubble.tsx:17-20 | a lower-case text starting with `snow` and without `u`, `c`, `i` gets the snowflake |
| `Bubble.RainBeforeLaterGroups` | src/components/MessageBubble.tsx:17-19 | a lower-case text starting with `rain` and without `u`, `c` gets the rain cloud |
| `Bubble.BubbleIcon` | src/components/MessageBubble.tsx:39 | user messages never get an icon; bot messages get the keyword icon |
| `Bubble.MinutesSince` | src/components/MessageBubble.tsx:31 | the minute count is the floor of the elapsed milliseconds over 60000 |
| `Bubble.AgeOf` | src/components/MessageBubble.tsx:33-36 | under 1 minute (negative included) is just now, 1..59 is minutes, 60..1439 is hours with 1 ≤ h ≤ 23, then the date |
| `Bubble.RenderAge` | src/components/MessageBubble.tsx:33-36 | "just now", the locale date, or digits that read back as the count followed by `m ago` or `h ago` |
| `Bubble.FormatRelativeTime` | src/components/MessageBubble.tsx:29-37 | the label, by elapsed milliseconds: "just now", `${m}m ago`, `${h}h ago` with the floored counts, or the locale date |
| `Bubble.RelativeTimeReadBack` | src/components/MessageBubble.tsx:34-35 | the digits of an "m ago"/"h ago" label read back as the elapsed minutes or hours |
| `Bubble.AgeMonotone` | src/components/MessageBubble.tsx:31-36 | a later clock never shows an earlier bucket or a smaller count |

## Left out

- Network and stream plumbing are not modelled: `fetch`, the request headers, the endpoint, `TextDecoder`, and the reader's `releaseLock`. A response is given as its status and whether it has a reader. The body is given as the already-decoded text of each read, or a failure with its message.
- `temperature: 0.5` is a float. It is represented exactly as the decimal 5 × 10⁻¹.
- `generateMessageId`, `new Date()` and `Date.now` read the clock and a random source. Ids and instants are parameters instead, and the send requires a bot id that does not occur in the list.
- `toLocaleString` and `toLocaleDateString` depend on the locale. They are parameters.
- The `onChunk`/`onError` closures are not modelled as closures. They are modelled by the trace of calls, which the chat state replays in order.
- The `console.error` log in the error path is left out.
- The sounds are left out, and so is `src/utils/soundNotification.ts`.
- Keyboard shortcuts, the Blob download, the reaction state and the other components are browser plumbing or rendering, and are left out.
- React's batching of state updates and the async interleaving are not modelled. Each `setMessages` updater is applied in order, as one step.
- `ChatApp.Chat.SendMessage`: the `catch` in the send handler is modelled by a `rejected` flag. The model assumes the throw comes after the callbacks have run. This makes no difference to the result, because the trouble text replaces whatever the bot message held.
- `Util.ToLower` lowers the ASCII letters only. JavaScript's `toLowerCase` also maps other scripts, and can change a string's length.
- Strings are sequences of code points, not of UTF-16 units. A character outside the Basic Multilingual Plane therefore counts as one position here but two in the code. This affects only offsets, never which frames are recognised, because every delimiter is ASCII.
- No `ensures` on the decoder claims that splitting the stream elsewhere gives the same output. That claim is false for this code, and `FrameFacts.SplitChangesOutput` exhibits the difference.
- The interleaved stream (`0:"Hello "` + `f:{"messageId":"x"}` + `0:"world"`) is not stated as a concrete lemma. `FrameFacts.SingleTextFrame` covers any payload without `:` with any positions escaped, quotes included, and the step lemmas cover the other frames.
- ScanText: its own `ensures` only place the close at a `"` at or after the start and bound the payload. That the close is the first unescaped quote, and that the payload is the un-escaped text, is stated by `Frames.ScanTextEscaped` and `Frames.ScanTextClosedIsEscaped` together.
- SingleTextFrame requires a payload without `:`. A `:` inside a payload lets a later position start a frame of its own, as `FrameFacts.ProcessedCanMoveBack` shows.
- ReadLoopOfTextFrames requires payloads without `:`. With one, whole frames can produce a spurious chunk, as `ApiFacts.WholeFramesSpuriousChunk` shows.
- The message of a rejected `fetch` is given as an input (`FetchRejected`), like the message of a failed read.
