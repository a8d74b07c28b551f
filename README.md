# Chat reply stream reader of ocean-pocket-studio

This project models the chat reply reader of `src/components/chat/ChatInterface.tsx` in Dafny, with proofs about it.

`streamChat` reads the assistant's reply from a chunked `text/event-stream`-style body:
- It appends each decoded chunk to a text buffer.
- It cuts complete lines off at the first line feed and strips one trailing carriage return.
- It skips comment lines, blank lines and lines without the exact `data: ` prefix.
- It stops at `data: [DONE]`.
- Otherwise it parses the payload and appends the non-empty `choices[0].delta.content` to the reply.
- After every delta, the `setMessages` updater shows the reply so far in the transcript. The updater rewrites the last message if it is the assistant's, and otherwise appends a new assistant message.

The model has the following files:
- `optional.dfy`: `Option`.
- `js_string.dfy`: the JavaScript string operations the reader relies on (`indexOf`, `startsWith`, `endsWith`, `trim` with the ECMAScript whitespace set).
- `messages.dfy`: the `Message` record of lines 17-22 as a datatype (its `Date` timestamp is an integer count of milliseconds), and the `setMessages` updater, as pure functions over `seq<Message>`.
- `event_stream.dfy`: the line classification and the two loops, as specification functions. `DrainLines` is the inner loop over one buffer, and `Consume` is the read loop over the remaining chunks.
- `stream_reference.dfy`: a reference reading of the whole text received, `ReadWhole`. It proves that the incremental reader agrees with it, so where the transport cuts the text never changes the reply.
- `chat_interface.dfy`: `streamChat` itself, as an imperative method with the source's nested loops. It runs on a `Chat` object whose `messages` field is the transcript state. The method is proved against `Consume` and `ReadWhole`, and against the updater for the transcript.
- `scenarios.dfy`: whole replies read end to end, for example two deltas and then the sentinel.

`JSON.parse` together with the optional-chaining read of `choices[0].delta.content` is a parameter `parse: string -> Parse`:
- `ParseFail` stands for anything thrown inside the `try` block.
- `Parsed(None)` stands for a missing field.
- `Parsed(Some(s))` stands for a string field.

The clock values used for a new message (`Date.now()`, `new Date()`) are parameters `id` and `now`.

The `catch` branch (lines 161-164) puts a line whose payload failed to parse back in front of the buffer and waits for more input. Its comment expects the next chunk to complete the payload. The line, however, was already cut at a line feed, so a later chunk only adds text after it. Every later chunk cuts the same line again, fails on it again, and puts it back again. The model follows the code:
- `EventStream.StalledStaysFrozen` proves that from then on the reply never changes and no later `[DONE]` is read.
- `StreamReference.EndedStreamIgnoresLaterInput` states the same at the level of the whole text.

The line that goes back is the one whose carriage return was already stripped, which changes nothing about how it is classified (`EventStream.StripCrKeepsData`).

## Model

| member | source | states |
|---|---|---|
| JsString.IndexOf | src/components/chat/ChatInterface.tsx:123 | `indexOf("\n")` is -1 exactly when there is no line feed; otherwise it is a line feed with none before it |
| JsString.CutAtFirst | src/components/chat/ChatInterface.tsx:123-125 | cutting `a + "\n" + b`, where `a` has no line feed, at the first line feed gives back `a` as the line and `b` as the new buffer |
| EventStream.CutFirstLine | src/components/chat/ChatInterface.tsx:123-125 | the extracted line has no line feed, and line + `"\n"` + new buffer is the old buffer |
| JsString.Trim | src/components/chat/ChatInterface.tsx:128 | `trim()` is empty exactly when the text is all whitespace; otherwise it starts and ends with a non-blank character |
| JsString.TrimIsSlice | src/components/chat/ChatInterface.tsx:128 | `trim()` returns a contiguous slice of the text, and everything before and after that slice is whitespace: only the edges are removed |
| JsString.TrimDropsTrailingWhitespace | src/components/chat/ChatInterface.tsx:131 | a whitespace character appended to a text does not survive `trim` |
| JsString.StartsWithSplit | src/components/chat/ChatInterface.tsx:128-129 | `startsWith(p)` holds exactly when the text is `p` followed by the rest of the text |
| JsString.EndsWithSplit | src/components/chat/ChatInterface.tsx:127 | `endsWith(p)` holds exactly when the text is the rest of the text followed by `p` |
| EventStream.StripCr | src/components/chat/ChatInterface.tsx:127 | exactly one trailing carriage return is removed when there is one; otherwise the line is unchanged |
| EventStream.Classify | src/components/chat/ChatInterface.tsx:128-134 | only a line with the `data: ` prefix gets past the two `continue` tests, and a payload handed on to `JSON.parse` is never `[DONE]`; the converse is `EventStream.ClassifyByPrefix` |
| EventStream.ClassifyByPrefix | src/components/chat/ChatInterface.tsx:128-134 | a line is skipped exactly when it lacks the `data: ` prefix (comment and blank lines lack it); it is the sentinel exactly when its trimmed payload is `[DONE]`; otherwise it is a data line carrying the trimmed payload |
| EventStream.ClassifyPrefixed | src/components/chat/ChatInterface.tsx:129-134 | `data: ` followed by a payload is the sentinel when the trimmed payload is `[DONE]`, and otherwise a data line with that trimmed payload |
| EventStream.StripCrKeepsData | src/components/chat/ChatInterface.tsx:127-131 | stripping a carriage return from a data line again leaves its classification and payload unchanged |
| EventStream.AppendDelta | src/components/chat/ChatInterface.tsx:139-140 | the reply only grows; it is unchanged exactly when the delta is absent or empty; otherwise the delta is appended at the end |
| EventStream.AppendDeltaFromEmpty | src/components/chat/ChatInterface.tsx:139-140 | what a delta adds does not depend on the reply it is added to |
| EventStream.LineStep | src/components/chat/ChatInterface.tsx:128-141 | one line continues with a content that extends the old one, stops with the content unchanged, or fails exactly when it is a data line whose payload does not parse |
| EventStream.LineStepFromContent | src/components/chat/ChatInterface.tsx:128-141 | a line's effect is independent of the content before it: the same outcome, with that content in front |
| EventStream.DrainLines | src/components/chat/ChatInterface.tsx:122-166 | the inner loop only extends the reply, and leaves a buffer without a line feed as it is |
| EventStream.DrainLeavesNoLineOrStall | src/components/chat/ChatInterface.tsx:123-164 | when the inner loop waits for input, the buffer holds no complete line, or it starts with the line whose payload failed |
| EventStream.SkippedLineInert | src/components/chat/ChatInterface.tsx:128-129 | a skipped line changes neither the reply nor whether the stream ends; draining goes on with the rest |
| EventStream.SentinelReturns | src/components/chat/ChatInterface.tsx:131-134 | the sentinel returns the reply as it is, whatever follows it in the buffer |
| EventStream.ParsedLineAppends | src/components/chat/ChatInterface.tsx:136-141 | a data line whose payload parses appends its delta, and draining goes on with the rest |
| EventStream.FailedLineRebuffered | src/components/chat/ChatInterface.tsx:161-164 | a data line whose payload fails to parse goes back, without its carriage return, in front of the rest, and the chunk is done with the reply unchanged |
| EventStream.RebufferedLineStalls | src/components/chat/ChatInterface.tsx:161-164 | the put-back line is again the first line of the buffer, and it fails again |
| EventStream.Consume | src/components/chat/ChatInterface.tsx:116-169 | the read loop only extends the reply it starts with |
| EventStream.StalledExtends | src/components/chat/ChatInterface.tsx:120-124 | text received after a failed line leaves that line first in the buffer |
| EventStream.StalledDrainWaits | src/components/chat/ChatInterface.tsx:161-164 | draining a buffer that starts with a failed line adds nothing and leaves it first again |
| EventStream.StalledStaysFrozen | src/components/chat/ChatInterface.tsx:161-164 | once a payload has failed to parse, no later chunk changes the reply, and no later `[DONE]` is read |
| StreamReference.Remainder | src/components/chat/ChatInterface.tsx:120-125 | the pending text after the last line feed: a suffix without a line feed that is the whole text or starts right after a line feed |
| StreamReference.ReadWhole | src/components/chat/ChatInterface.tsx:116-169 | the reference reading of the whole text only extends the reply, and text without a line feed reads as nothing |
| StreamReference.ReadWholeFromContent | src/components/chat/ChatInterface.tsx:139-140 | the reply is append-only: reading from a content gives that content followed by what reading from nothing gives, ending the same way |
| StreamReference.ReadWholeAppend | src/components/chat/ChatInterface.tsx:120-125 | reading `a + b` reads the complete lines of `a` first; only if that leaves the stream open does it go on from the pending remainder of `a` followed by `b` |
| StreamReference.RebufferedLineBlocks | src/components/chat/ChatInterface.tsx:161-164 | a failed data line blocks the reading, whatever text follows it |
| StreamReference.DrainLinesAgrees | src/components/chat/ChatInterface.tsx:122-166 | the inner loop returns exactly where the reference terminates; what it leaves waiting reads, with any later text, as its buffer did |
| StreamReference.ConsumeAgrees | src/components/chat/ChatInterface.tsx:116-169 | from any buffer the inner loop can leave, the read loop returns the reference reading of the buffer followed by all later chunks |
| StreamReference.ReadsAsWhole | src/components/chat/ChatInterface.tsx:113-169 | the reply is the reference reading of the concatenation of all chunks |
| StreamReference.ChunkingInvariance | src/components/chat/ChatInterface.tsx:116-125 | two chunkings of the same text give the same reply |
| StreamReference.EndedStreamIgnoresLaterInput | src/components/chat/ChatInterface.tsx:131-164 | once the text received holds the sentinel or a failed payload, later chunks do not change the reply |
| StreamReference.UnterminatedTailDropped | src/components/chat/ChatInterface.tsx:117-118 | a last chunk without a line feed changes nothing: a pending partial line at the end is dropped, not an error |
| Messages.ShowReply | src/components/chat/ChatInterface.tsx:143-159 | the list ends with the assistant's message holding the text. If the last message was the assistant's, the length and the other messages are unchanged, and the last keeps its id, role and time. Otherwise the old list is a prefix and exactly one assistant message (`id`, `now`) is appended |
| Messages.LatestReplyWins | src/components/chat/ChatInterface.tsx:143-159 | two updates in a row equal the later update alone, with the identity the first one gave: one stream creates at most one assistant message |
| Messages.Transcript | src/components/chat/ChatInterface.tsx:139-159 | with no delta the transcript is unchanged; otherwise it ends with the assistant's message holding the reply, and grows by at most one message |
| Messages.TranscriptAdvances | src/components/chat/ChatInterface.tsx:139-159 | updating the transcript for a reply with the longer reply gives the transcript for the longer reply |
| ChatInterface.Chat.constructor | src/components/chat/ChatInterface.tsx:25 | the transcript starts empty |
| ChatInterface.Chat.StreamChat | src/components/chat/ChatInterface.tsx:113-169 | the returned reply is `Consume` of the chunks and the reference reading of their concatenation; the transcript ends as the old one updated with that reply |
| Scenarios.TwoDeltasThenDone | src/components/chat/ChatInterface.tsx:116-169 | two data lines, the second in the same chunk as `[DONE]`, give their deltas joined in order |
| Scenarios.EndWithoutDone | src/components/chat/ChatInterface.tsx:117-118 | a reply whose transport ends without `[DONE]` keeps the delta it received |
| Scenarios.SplitLineJoined | src/components/chat/ChatInterface.tsx:120-125 | a data line cut in two by the transport at any point of its payload gives the same reply as the uncut line |

## Left out

- The request (`fetch`, headers, endpoint and key from the environment) and the `response.ok` / missing-body error (lines 94-109) are network I/O. The model starts from the received chunks.
- `TextDecoder` streaming UTF-8 decoding (lines 112, 120) is a foreign library. Chunks are already-decoded text, so a multi-byte character split across reads is not modelled.
- Strings are sequences of Unicode characters, not of UTF-16 code units. This only matters for `indexOf`/`slice` positions after characters outside the Basic Multilingual Plane, and the reader never exposes those positions.
- `JSON.parse` and the field read (lines 137-138) are the `parse` parameter. A non-string `content` that JavaScript treats as truthy (a number, an object) would be appended through string conversion. It is not modelled: `Parsed` carries an optional string.
- A failure of `reader.read()` in the middle of the stream is not modelled. Nor is any exception other than the parse failure caught at line 161.
- `EventStream.Consume`, `StreamReference.ReadWhole`, `ChatInterface.Chat.StreamChat`: the transport's end of stream is the end of the chunk sequence. An endless or stalled transport is outside the model.
- `ChatInterface.Chat.StreamChat`: React runs the updater given to `setMessages` later, and it reads `assistantContent` at that time. The model applies each update at once. `Messages.LatestReplyWins` shows that the final transcript is the same either way. `Date.now()` and `new Date()` are the parameters `id` and `now`, which only the first update, the one that appends, uses.
- The Supabase persistence (`createConversation`, `saveMessage`, `loadMessages`, lines 40-91) is a hosted database client.
- `handleSend` and `startNewChat` (lines 172-227) are outside the model: they involve asynchronous React state, notifications and re-entrant sends.
- The rendering, voice and language controls of the component, and the other pages and components of the repository, are presentation code.
