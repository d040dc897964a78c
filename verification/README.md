# Verified model of go-on's protocols and streaming readers

go-on is an agent server that speaks ACP to an editor and streams completions from LLM providers. This project models
the parts of it whose correctness is about every interleaving, every log or every way of cutting a stream into chunks,
and proves what they promise, for all inputs.

| file | what it models |
|---|---|
| `Drain.dfy` | graceful shutdown: the drain flag, the permit semaphore and the one-slot notifier, as atomic steps of any number of requests and one waiter |
| `PendingRequests.dfy` | permission requests sent to the client: registration, response, timeout and write failure racing on one table |
| `SessionLog.dfy` | the append-only session log and its projection into model-visible messages |
| `Sse.dfy` | the server-sent-events parser, its caps, and the loop that feeds it |
| `Format.dfy` | the event-stream format line by line, and what a stream says |
| `ToolCalls.dfy` | tool-call accumulation over streamed deltas, and the repair of truncated arguments |
| `Anthropic.dfy` | the Anthropic event handler, a transducer from events to tokens |
| `Agents.dfy` | the agent registry with its eviction queue; rotation over secret pools |
| `UnifiedDiff.dfy` | the unified-diff reader, down to the characters of the hunk header |
| `Markdown.dfy` | the streaming markdown renderer |
| `Decompress.dfy` | the incremental reader and the gzip detection in front of the decoder |
| `Tail.dfy` | what the parser makes of the flushed tail of a compressed stream, against reading on |
| `Compressed.dfy` | the loop that decompresses before it parses, against the plain loop |
| `Common.dfy` | options, bytes, text, and cutting a growing buffer into lines |

Objects that the program updates in place are classes. Each method is proved against a specification function of the
old state, and the laws are lemmas about that function. The two concurrent protocols are state machines: an action is one
access to shared memory, a disabled action changes nothing, so `Exec` over all action lists is all reachable states.

`dafny verify dfyconfig.toml` checks the whole project.

## Where the code does less than its documentation says

- `wait_for_drain` is documented to wait until the in-flight requests complete. A request that raced with the drain drops
  its permit without notifying; if that permit is the last one home, the waiter sleeps on until its timeout and reports
  failure with nothing in flight (`SilentDropStrandsWaiter`). `DrainCompletesIff` gives the exact condition under which
  the documented promise holds in every schedule: someone still owes a notification and no request is between the two
  checks of `acquire`; `WaitCompletesIff` gives it for the moment of the call. `WaiterCanSucceedIff` says when the promise
  holds in some schedule.
- The 4 MiB cap is documented per event; the counter behind it is never reset while a stream is accepted, so it bounds
  the whole stream (`CounterIsCumulative`, `AcceptedIff`, `TinyEventsAddUp`).
- `strip_trailing_incomplete_escape` looks at the byte before a final backslash instead of the one after it, and not at
  `\u` escapes at all, so some incomplete escapes survive (`StripLeavesIncompleteEscape`, `StripLeavesUnicode`);
  `StripCompletesIff` says exactly which.
- The session log's "attach to the last emitted message" branch can never be taken (`NoAttachToLast`).
- A permission request id is a millisecond timestamp and a random number. Two requests that draw the same id can break
  each other (`SharedIdBreaksTheCall`); `DroppedIffRobbed` and `ClosedIffRobbed` say exactly when a call loses its channel.
- The diff reader knows no file boundaries: the `+++` line of a later file reads as an added line of the file before
  (`SecondFileHeaderMisread`). `FilesReadRightIff` says exactly which diffs of several files are read right.
- The Anthropic handler forgets a tool call when the next tool_use start follows without a closing event
  (`StartAfterStartLosesCall`), and when the stream ends with the block open. `EveryStartCallsIff` says exactly when no
  call is lost, and `TokensExact` which calls are made. A ping inside a tool block sends the call off early and the later
  fragments are dropped (`PingCutsCall`); `CallsWholeIff` says exactly when every call has all fragments of its block.
- The decompressing loop parses the flushed tail with a parser of its own, so an event that spans the last chunk and the
  tail comes apart (`EventComesApart`), and a handler that stops in the tail is called again (`StopInTailIgnored`); both
  are shown at a stream. `HandlerSeesDecodedIff` says, for all chunks, tails and handlers, exactly when the handler sees
  what the plain loop would show it.
- With decompression on, a stream that turns out not to be gzip has its first two bytes held back, and so a first byte
  joined to the next chunk. Where that piece is larger than a push may be, events are lost (`FirstPieceLost`); where it
  fits, nothing changes (`PlainStreamUnchanged`).

## Model

| member | source | states |
|---|---|---|
| `Drain.StepKeepsInv` | src/acp/server.rs:97-199 | every atomic step keeps the permit count and the wake-up invariant |
| `Drain.PermitsConserved` | src/acp/server.rs:73-199 | in every interleaving, free permits, bare permits and DrainPermits add up to the capacity |
| `Drain.ReturnTrueMeansDrained` | src/acp/server.rs:149-180 | when the wait returns true no request owns a permit, spurious or stale wake-ups included; no DrainPermit is ever handed out again iff the drain had started (or the capacity is 0) |
| `Drain.DrainIsFinal` | src/acp/server.rs:134-199 | a wait called after the drain started that returned true: in every continuation no request owns a DrainPermit |
| `Drain.QuietForever` | src/acp/server.rs:184-199 | draining with no DrainPermit owned: in every continuation none is ever owned again, even by requests already past the first check |
| `Drain.NoLostWakeup` | src/acp/server.rs:97-199 | waiter parked and all permits free: a DrainPermit in mid-drop is about to notify, unless the last permit came back through the silent re-check drop |
| `Drain.WakeupDelivers` | src/acp/server.rs:97-180 | that notification makes the waiter return true |
| `Drain.WaiterCanSucceedIff` | src/acp/server.rs:149-199 | a waiter parked during the drain returns true in some timeout-free schedule iff some request owns a DrainPermit or is dropping one |
| `Drain.DrainCompletesIff` | src/acp/server.rs:147-199 | the documented promise: a waiter parked during the drain returns true, in every timeout-free schedule, once the requests in flight are done, iff some request owns a DrainPermit or is dropping one and none is between the two checks; the same condition decides whether it can ever be parked with nobody left to notify it |
| `Drain.WaitCompletesIff` | src/acp/server.rs:147-199 | at the moment of the call, while draining: every timeout-free schedule without a second call returns true once the requests are done iff all permits are home or no request is between the two checks |
| `Drain.WaitEndsAtDeadline` | src/acp/server.rs:149-180 | from every reachable state a call that reaches its timeout has returned in every continuation without a second call: true iff the call or an earlier read found all permits home, else false |
| `Drain.TimeoutReturnsNotification` | src/acp/server.rs:161-177 | the timeout touches the waiter alone; a notification a woken waiter had taken is back in the slot |
| `Drain.RunKeepsSafe` | src/acp/server.rs:149-199 | with no racer left and a notification owed to a waiting waiter, every timeout-free run keeps both |
| `Drain.LoseNotifiers` | src/acp/server.rs:97-199 | a request between the two checks that owns a permit can outlast every notification, leaving the waiter parked for good |
| `Drain.BringHome` | src/acp/server.rs:97-199 | if a notifier is left there is a schedule that brings every permit home with a notification still to come |
| `Drain.Stranded` | src/acp/server.rs:149-199 | with no notifier left the waiter stays parked in every timeout-free run |
| `Drain.SilentDropStrandsWaiter` | src/acp/server.rs:184-199 | a concrete race: all permits home, waiter parked, nobody left to notify it |
| `PendingRequests.RunConsistent` | src/acp/server.rs:1417-1450 | in every run the table holds exactly the senders nobody has taken out, each under its own id |
| `PendingRequests.UnknownIdChangesNothing` | src/acp/server.rs:1427-1450 | a response leaves the state alone iff its id is missing or not in the table |
| `PendingRequests.ResultsAreAnswers` | src/acp/server.rs:1461-1575 | approval, denial or a client error is returned only if a response under that very id, arriving while the call was registered, carried it |
| `PendingRequests.DecisionsSpelledOut` | src/acp/server.rs:1709-1723 | a returned decision, down to the JSON fields: a response under the call's own id said so; a client error was an error without a result |
| `PendingRequests.ResponsesSpelledOut` | src/acp/server.rs:1441-1446 | every response is taken for what its fields say: error alone, result even beside an error, neither is a denial |
| `PendingRequests.AtMostOneOutcome` | src/acp/server.rs:1427-1450 | no call is answered twice, whatever ids the calls use |
| `PendingRequests.ReturnIsFinal` | src/acp/server.rs:1530-1575 | once any call has returned, no continuation changes its result |
| `PendingRequests.AnswerDecidesTheCall` | src/acp/server.rs:1530-1575 | an answered call, written and not timed out, returns nothing but the answer's decision, whatever ids the other calls use |
| `PendingRequests.AnswerEndsTheCall` | src/acp/server.rs:1427-1450 | a response under the id of a waiting call, once delivered, makes it return the decision of that response |
| `PendingRequests.RunGivesUp` | src/acp/server.rs:1513-1575 | a call fails to send or times out only through its own write failure or its own timeout |
| `PendingRequests.GivingUpEndsTheCall` | src/acp/server.rs:1513-1575 | a failed write and a fired timeout end the call: in every interleaving, once its removal has happened it has returned that failure and its id is absent |
| `PendingRequests.LateAnswerIsDropped` | src/acp/server.rs:1448-1450 | an answer delivered to a call that timed out or returned goes nowhere |
| `PendingRequests.ReturnedLeavesNoEntry` | src/acp/server.rs:1461-1575 | whatever ids are drawn, no table entry belongs to a returned call; its id is in the table iff another call is registered under it |
| `PendingRequests.DroppedIffRobbed` | src/acp/server.rs:1417-1450 | a call that has not given up or returned has lost its sender iff another call inserted or removed under its id while its entry was in the table |
| `PendingRequests.ClosedIffRobbed` | src/acp/server.rs:1513-1575 | of the returned calls that were written and did not time out, exactly the robbed ones fail with a closed channel |
| `PendingRequests.OwnIdIsSafe` | src/acp/server.rs:1417-1575 | a call whose id no other call uses is never robbed; once returned its id is absent and its channel was not closed under it |
| `PendingRequests.SharedIdBreaksTheCall` | src/acp/server.rs:1417-1425 | two calls under one id: the first fails with a closed channel and the id stays in the table |
| `SessionLogs.SessionLog.Append` | src/acp/session_log.rs:126-128 | the log grows by exactly this event |
| `SessionLogs.SessionLog.DeriveMessages` | src/acp/session_log.rs:155-264 | the loop computes the projection `Derive` |
| `SessionLogs.FlushAssistant` | src/acp/session_log.rs:268-275 | an open turn becomes one assistant message |
| `SessionLogs.CarriedByFollowing` | src/acp/session_log.rs:247-255 | the forward scan: the next assistant text before any user message contains the block |
| `SessionLogs.PassTracks` | src/acp/session_log.rs:161-263 | after every prefix of the log the open turn, its material flag and the output are what the turn grouping says |
| `SessionLogs.DeriveIsGrouping` | src/acp/session_log.rs:155-264 | the one-pass projection equals a declarative grouping into turns with no running state |
| `SessionLogs.GroupingSpelledOut` | src/acp/session_log.rs:173-258 | what a message grows by at each event, with separators and tool blocks written out, and which results are left to a later text |
| `SessionLogs.NoAttachToLast` | src/acp/session_log.rs:232-240 | with no open turn the output is empty or ends in a user message, so a tool result is skipped and the attach branch never taken |
| `SessionLogs.UserTurnsCompose` | src/acp/session_log.rs:161-263 | derive(A + user + B) = derive(A) + derive(user + B), despite the lookahead |
| `SessionLogs.AppendRetractsBlock` | src/acp/session_log.rs:242-258 | inside a turn an append does rewrite history: a later text with the same block takes the shown block back |
| `SessionLogs.AppendRewritesIff` | src/acp/session_log.rs:242-258 | for every log and event: what is derived from the old events changes iff the event is an assistant text containing the block of a result shown since the last user or assistant event; and exactly those blocks are taken back |
| `SessionLogs.LogConserved` | src/acp/session_log.rs:155-299 | every user, assistant and thought text is in a derived message, positions monotone in event order; every tool result with an assistant context has its block, written out with name, output and the tag for its outcome, there or in the next assistant text's message |
| `SessionLogs.MessagesCounted` | src/acp/session_log.rs:161-263 | user messages are the user events in order; assistant messages number the assistant texts plus the thought-opened turns that no assistant text was folded into, each counted as itself |
| `Sse.SseEventParser.PushChunk` | src/agents/mod.rs:485-551 | the loop's result and new state are those of `Push`, refusals included |
| `Sse.SseEventParser.HandleLine` | src/agents/mod.rs:497-547 | one complete line: its event, or the refusal and what it clears |
| `Sse.SseEventParser.FinishCurrent` | src/agents/mod.rs:580-588 | the pending data lines become one event; the counter stays |
| `Sse.SseEventParser.FinishStream` | src/agents/mod.rs:568-578 | end of stream dispatches the unfinished line and event |
| `Sse.LoopIsDrain` | src/agents/mod.rs:496-550 | taking lines one at a time equals classifying the whole buffer and taking its lines, refusals and leftover text included |
| `Sse.PushAllIsDrain` | src/agents/mod.rs:484-551 | accepted chunks are parsed as their concatenation |
| `Sse.ChunkIndependence` | src/agents/mod.rs:484-604 | any two ways of cutting the same text, no push refused: same events, same final state, same events at the end |
| `Sse.SmallStreamAccepted` | src/agents/mod.rs:485-547 | text below the caps is never refused, under any chunking |
| `Sse.CounterIsCumulative` | src/agents/mod.rs:533-546 | the counter is the data bytes of all events since the parser was made |
| `Sse.AcceptedIff` | src/agents/mod.rs:485-547 | a push is accepted iff buffer and lines stay below their caps and the data of all events so far stays below 4 MiB |
| `Sse.TooLongIff` | src/agents/mod.rs:511-521 | a line is refused as too long iff it has more than 1 MiB before its end |
| `Sse.RefusalLeaves` | src/agents/mod.rs:485-545 | what a refused push leaves: all as it was, a parser like new, or the text after the offending line |
| `Sse.TinyEventsAddUp` | src/agents/mod.rs:533-588 | n events of one byte each are accepted iff n is at most the "per event" cap |
| `Sse.FinishIsBlankLine` | src/agents/mod.rs:504-604 | ending the stream gives the events two more newlines would give: the two line handlers agree |
| `Sse.ParserInvertsPrinter` | src/agents/mod.rs:484-604 | printed events, parsed under any accepted chunking, come back with one CR off each line end: unchanged iff no line ends in CR |
| `SseFormat.ParserReadsFormat` | src/agents/mod.rs:484-604 | for every stream of lines (data with or without space or colon, comments, other fields, LF or CRLF, broken off anywhere) under any accepted chunking: the events are the data values between empty lines, joined; nothing else says anything |
| `SseFormat.AnyText` | src/agents/mod.rs:484-604 | every text is such a stream of lines |
| `Sse.SmallPrintRoundTrips` | src/agents/mod.rs:484-604 | up to 1 MiB the round trip needs no acceptance hypothesis |
| `Sse.HandleEvents` | src/agents/mod.rs:619-623 | a handler, which may remember, gets the events up to and including the first it stops at |
| `Sse.HandledIsPrefix` | src/agents/mod.rs:619-623 | the handler is given a prefix of the events, ending at the first at which it stops, or all of them |
| `Sse.StreamSseEvents` | src/agents/mod.rs:606-640 | the loop hands over the stream's events up to the stop of a handler that may remember; a refused chunk restarts the parser |
| `Sse.RefusedChunkRestarts` | src/agents/mod.rs:625-630 | a refused chunk costs its events and what was pending; the stream goes on as if it began after it |
| `Sse.HandlerSeesSameEvents` | src/agents/mod.rs:606-640 | any handler, remembering or not, sees the same events however the stream is cut |
| `TrailingEscape.StripTrailingIncompleteEscape` | src/agents/mod.rs:61-88 | the backward walk trims control bytes and then at most one backslash |
| `TrailingEscape.StripIs` | src/agents/mod.rs:61-88 | exactly what is removed: all trailing control bytes, and before them one backslash iff the byte before it is none of the eight that keep it |
| `TrailingEscape.StripIsUtf8Safe` | src/agents/mod.rs:61-88 | on valid UTF-8 the cut is on a character boundary, the result a valid prefix, the removed suffix control characters after at most one backslash |
| `TrailingEscape.IncompleteIff` | src/agents/mod.rs:61-88 | a reader of JSON text stops inside an escape iff the text ends in an unescaped backslash, or in an unescaped `\u` and fewer than four hex digits |
| `TrailingEscape.StripCompletesIff` | src/agents/mod.rs:61-88 | after the trailing control bytes, an incomplete escape survives iff the byte before an unescaped final backslash is one of the eight the walk keeps, or the text less a final backslash ends in an unfinished `\u` escape |
| `TrailingEscape.StripLeavesIncompleteEscape` | src/agents/mod.rs:71-84 | an input whose incomplete escape survives |
| `TrailingEscape.StripLeavesUnicode` | src/agents/mod.rs:67-86 | every text that ends in an unfinished `\u` escape is left as it is; such a text |
| `ToolCalls.ToolCallAccumulator.ExtractTokens` | src/agents/mod.rs:863-912 | deltas are absorbed by index; a finish reason emits and empties everything |
| `ToolCalls.ToolCallAccumulator.DrainEntries` | src/agents/mod.rs:905-910 | one token per entry with name and id, in some order of the indices; the map is empty after |
| `ToolCalls.AccumulatedEntry` | src/agents/mod.rs:864-884 | read off the deltas' own fields, an entry is its index's last non-empty id and name and all its fragments in order; a missing index is 0 |
| `ToolCalls.Accumulates` | src/agents/mod.rs:863-912 | before a finish reason nothing is emitted and the entries are those of all deltas so far |
| `ToolCalls.StreamEmitsEachCallOnce` | src/agents/mod.rs:863-912 | a stream ending in a finish reason: exactly one call per index with final name and id, stripped concatenated arguments, nothing earlier, accumulator empty |
| `Anthropic.SseEventHandler.Send` | src/agents/anthropic.rs:342-344 | a token goes out while the receiver is there |
| `Anthropic.SseEventHandler.SendPending` | src/agents/anthropic.rs:336-346 | the pending call is sent and its name taken, also when the receiver has left |
| `Anthropic.SseEventHandler.OnEvent` | src/agents/anthropic.rs:301-402 | one event: tokens, stop and new state of `Handle`; a receiver that left got a prefix, the stream stops, and a call it no longer took is forgotten |
| `Anthropic.EventSpelledOut` | src/agents/anthropic.rs:301-402 | every shape of event, in its own fields, and what it does |
| `Anthropic.TokensExact` | src/agents/anthropic.rs:294-403 | for every stream the tokens are, event by event, the call the event completes and then its text |
| `Anthropic.HandleTracks` | src/agents/anthropic.rs:301-402 | each event emits exactly the call it closes, named and argued by looking back over the stream, and its text |
| `Anthropic.AtMostOneCallPerStart` | src/agents/anthropic.rs:294-403 | at most one call per named tool_use start, for every stream and every prefix received |
| `Anthropic.EveryStartCallsIff` | src/agents/anthropic.rs:294-403 | there are as many calls as named tool_use starts iff every one of them is closed before the next tool_use start and before the stream ends |
| `Anthropic.CallsWholeIff` | src/agents/anthropic.rs:294-403 | every call carries the initial input and all fragments of its block iff no event sends a call off while fragments of its block are still to come |
| `Anthropic.PingCutsCall` | src/agents/anthropic.rs:379-389 | a ping between two fragments: the call is sent with the first, the second is lost |
| `Anthropic.BracketedStream` | src/agents/anthropic.rs:294-403 | blocks of start, deltas, stop: exactly one call per named block with initial input plus all fragments, texts in order around it |
| `Anthropic.MessageSpelledOut` | src/agents/anthropic.rs:294-403 | every message, written out in its events' fields: all text pieces as they are, one call per tool block with initial input (unless `{}`) and all fragments |
| `Anthropic.StartAfterStartLosesCall` | src/agents/anthropic.rs:318-336 | a start right after a start loses the first call |
| `Registry.AgentRegistry.RegisterArc` | src/agents/agent.rs:849-873 | the new map and queue are those of `Register` |
| `Registry.RegistryRefines` | src/agents/agent.rs:849-873 | after any registrations queue and map agree, without duplicates: the last 1000 distinct names by latest registration, each with its latest agent |
| `Registry.LatestSnoc` | src/agents/agent.rs:862-865 | one more registration moves its name to the end of the distinct names |
| `Registry.QueueStep` | src/agents/agent.rs:854-865 | moving, growing and evicting keep the queue the last 1000 of the distinct names |
| `Rotation.SecretPools.PickIndex` | src/agents/agent.rs:475-512 | index and counters are those of `Pick`, in all three branches |
| `Rotation.ApiPicksCoverOnce` | src/agents/agent.rs:489-494 | any len consecutive api-key picks of a group, with picks of other groups and pool lengths anywhere in between, use each index exactly once |
| `Rotation.PairPicks` | src/agents/agent.rs:489-506 | in an alternating run the secret index equals the api index before it, and pair k uses (start + 2k) mod len |
| `Rotation.PairsCoverIff` | src/agents/agent.rs:489-506 | the pairs visit every slot iff the pool length is odd |
| `Rotation.MixedPicks` | src/agents/agent.rs:475-512 | every pick of a group in any mix of fields: the counter starts at 0, or 1 if a secret key comes first, advances by one, and a secret key gets the one before |
| `Rotation.SameGroupIff` | src/agents/agent.rs:467-473 | two fields share a counter iff one dotless name is all of each or what stands before its first dot |
| `Rotation.SmallPoolHarmless` | src/agents/agent.rs:476-478 | a pool of at most one value gives index 0 and moves no counter |
| `Rotation.GroupsAreIndependent` | src/agents/agent.rs:467-512 | in a run of requests of any fields and pool lengths a group gets exactly the indices its own requests alone would get |
| `UnifiedDiff.ParseUnifiedDiffPatch` | src/agents/self_evolution_agent.rs:798-857 | the loop returns the pairs of `Patched`, or nothing when there are none |
| `UnifiedDiff.AssembledReads` | src/agents/self_evolution_agent.rs:803-803 | a text put together from lines with any ends is read as those lines, an unfinished last one included |
| `UnifiedDiff.HeaderReadsBack` | src/agents/self_evolution_agent.rs:813-829 | every printed hunk header, with or without counts and section, reads back as its new-file start |
| `UnifiedDiff.HunkHeaderIff` | src/agents/self_evolution_agent.rs:813-813 | a hunk header is a line that starts with `@@ -` and has another ` @@` |
| `UnifiedDiff.HeaderWithoutNumber` | src/agents/self_evolution_agent.rs:815-829 | a header without a plus part, or whose number is 0 or no number, names no line |
| `UnifiedDiff.DiffReadsAddedLines` | src/agents/self_evolution_agent.rs:798-857 | for the diff of any edit script as a text, LF or CRLF at each line, with or without one at the end: exactly the added lines in order, trimmed, each with its line number in the new file |
| `UnifiedDiff.ReadBody` | src/agents/self_evolution_agent.rs:832-849 | in a hunk additions and context advance the number, removals and markers do not |
| `Text.WhitespaceIs` | src/agents/self_evolution_agent.rs:834-834 | white space is the 25 characters of the Unicode White_Space property |
| `Text.TrimEndIs` | src/agents/self_evolution_agent.rs:834-834 | what is trimmed is white space, and all of it |
| `UnifiedDiff.FilesReadRightIff` | src/agents/self_evolution_agent.rs:798-857 | a diff of any number of files yields exactly all added lines under their own numbers iff every file but the last shows no hunk or has its last hunk start at line 0 |
| `UnifiedDiff.SecondHeaderIsAdded` | src/agents/self_evolution_agent.rs:832-838 | any text that creates two one-line files: the second `+++` line is reported as line 2 of the first file |
| `UnifiedDiff.SecondFileHeaderMisread` | src/agents/self_evolution_agent.rs:832-838 | a concrete text of two files and the wrong result it gets |
| `Markdown.StreamMarkdownRenderer.FeedToken` | src/cli/markdown_renderer.rs:347-359 | the new state is that of `Feed`, the result the raw text so far |
| `Markdown.StreamMarkdownRenderer.HandleLine` | src/cli/markdown_renderer.rs:402-471 | one line: fences, code, table rows, end of table, regular text |
| `Markdown.StreamMarkdownRenderer.FlushAll` | src/cli/markdown_renderer.rs:364-395 | output, then code block, table and partial line; afterwards nothing is pending |
| `Markdown.FeedingInPieces` | src/cli/markdown_renderer.rs:347-471 | tokens one by one leave state, output and raw text exactly as their concatenation does |
| `Markdown.RawIsEverything` | src/cli/markdown_renderer.rs:347-359 | the raw text is all that was fed, the buffer its unfinished last line |
| `Markdown.RenderingKeepsWellFormed` | src/cli/markdown_renderer.rs:347-471 | every feed and flush keeps: no text left over outside code blocks, no rows outside tables, columns of an open table exactly as wide as their widest cell; a flush leaves a blank page |
| `Markdown.ReachablePagesWellFormed` | src/cli/markdown_renderer.rs:347-471 | those hold of every page that any list of tokens leads to |
| `Markdown.CodeBlockVerbatim` | src/cli/markdown_renderer.rs:404-429 | a fenced block is rendered once and verbatim under its language, an open table staying open across it |
| `Markdown.TableRenderedWhole` | src/cli/markdown_renderer.rs:431-470 | a table is rendered once, before the line that ends it, from all its non-separator rows with tight widths |
| `Markdown.PlainTextShown` | src/cli/markdown_renderer.rs:347-471 | text without code and tables, in any tokens: each line is shown in order, the unfinished one at the flush with a newline |
| `Markdown.OpenCodeFlushed` | src/cli/markdown_renderer.rs:364-390 | a code block never closed is rendered at the flush, then the unfinished line |
| `Markdown.OpenTableFlushed` | src/cli/markdown_renderer.rs:376-390 | a table at the end of the text is rendered whole at the flush, then the unfinished line |
| `Markdown.RowReadsBack` | src/cli/markdown_renderer.rs:432-445 | a row reads back as its cells' texts, trimmed, without empty ones; a separator iff they hold only dashes, colons and spaces |
| `Markdown.FenceReadsBack` | src/cli/markdown_renderer.rs:415-421 | a fence line, indented and with any number of fences, gives the language after them, trimmed |
| `Decompress.IncrementalReader.Push` | src/agents/sse_compressor.rs:87-102 | the visible state becomes that of the run step: the unread bytes grow by the chunk, up to the cap |
| `Decompress.IncrementalReader.Finish` | src/agents/sse_compressor.rs:104-107 | the visible state becomes that of the run step: only the end-of-input flag changes |
| `Decompress.IncrementalReader.Read` | src/agents/sse_compressor.rs:115-132 | state and answer of the run step: the next unread bytes; with none left, end of file iff finished, else would-block |
| `Decompress.ReadAnswers` | src/agents/sse_compressor.rs:116-131 | a read hands out as much as fits and is there; with nothing there end of file iff the end was declared |
| `Decompress.ReaderConserves` | src/agents/sse_compressor.rs:77-132 | below the cap, in every run, bytes read plus bytes buffered are the bytes pushed |
| `Decompress.EofMeansAllConsumed` | src/agents/sse_compressor.rs:104-132 | end of file only after finish, and then every byte pushed has been read (no push since) |
| `Decompress.ReadsToTheEnd` | src/agents/sse_compressor.rs:104-132 | once the end is declared, reading on hands out all that is left and then reports end of file |
| `Decompress.SseDecompressor.DecompressChunk` | src/agents/sse_compressor.rs:175-211 | output and new state of `Chunk`: hold, detect, pass through, or feed the decoder |
| `Decompress.SseDecompressor.FlushRemaining` | src/agents/sse_compressor.rs:219-230 | output and new state of `Flush` |
| `Decompress.SseDecompressor.PullDecoder` | src/agents/sse_compressor.rs:251-290 | the read loop: the bytes the decoder takes leave the reader, its output is returned up to 16 MiB |
| `Decompress.PullIsReads` | src/agents/sse_compressor.rs:251-290 | for every decoder a call returns, in order, all its successive reads yield until one yields nothing, or exactly the first 16 MiB |
| `Decompress.PassthroughIsIdentity` | src/agents/sse_compressor.rs:175-230 | disabled, or no gzip magic at the start: chunk outputs plus flush are the input, for every chunking |
| `Decompress.GzipReachesDecoder` | src/agents/sse_compressor.rs:182-211 | with the magic, what the decoder took plus what waits for it is the whole input, for every chunking and any decoder, as long as no push went over the cap |
| `Decompress.GzipOutputIsYields` | src/agents/sse_compressor.rs:175-230 | below the caps, for every decoder and chunking of a gzip stream: outputs plus flush are all that the decoder's reads yield, in order |
| `Decompress.GzipOutputBounded` | src/agents/sse_compressor.rs:251-290 | whatever the compressed input, no call of a gzip stream returns more than 16 MiB |
| `CompressedStream.StreamSseWithHandler` | src/agents/mod.rs:714-791 | the loop hands the handler exactly the events of `Given`: main parser, then the tail's own parser, then the end of the main parser |
| `CompressedStream.DecodeAndParse` | src/agents/mod.rs:738-760 | the chunk loop: events of the decoded chunks up to the stop, the main parser and the flushed tail |
| `TailReading.TailAgreesIff` | src/agents/mod.rs:762-788 | for every parser between two pushes and every tail: the two loops produce the same events from the tail on iff, up to the first empty line, reading on gives what the tail gives alone and then the leftovers, and every later event equals the leftovers |
| `TailReading.PendingReconcilesIff` | src/agents/mod.rs:762-788 | a parser at the end of a line with an event pending and a tail it accepts: they agree iff no data line of the tail comes before its first empty line and every event in the tail equals the pending one |
| `TailReading.CleanReconciles` | src/agents/mod.rs:762-788 | a parser between two events agrees with every tail it accepts |
| `TailReading.FreshAccepts` | src/agents/mod.rs:485-551 | a tail that any parser accepts, a fresh one accepts |
| `CompressedStream.HandlerSeesDecodedIff` | src/agents/mod.rs:714-791 | for all decoded chunks, tails and handlers: the handler sees what the plain loop shows on the decoded bytes iff it stops before the tail, or is not called again after a stop and the tail reconciles or it stops while both readings agree |
| `CompressedStream.AnyTail` | src/agents/mod.rs:738-763 | every decoded chunk and every tail, below the cap, are those of some stream |
| `CompressedStream.EventComesApart` | src/agents/mod.rs:762-788 | a stream of which the plain loop shows an event and the decompressing loop half of it |
| `CompressedStream.StopInTailIgnored` | src/agents/mod.rs:767-780 | a stream whose handler stops at its first event, in the tail, and is called again |
| `CompressedStream.PlainStreamUnchanged` | src/agents/mod.rs:714-791 | decompression on, no gzip magic, a chunking the plain loop accepts, and a first piece that fits: every handler sees what it would see with decompression off |
| `CompressedStream.PlainStreamAcceptedIff` | src/agents/mod.rs:738-760 | of such a stream the decompressing loop has no push refused iff the first piece fits |
| `CompressedStream.PlainStreamStartingWithTwo` | src/agents/mod.rs:714-791 | if the first chunk with anything in it brings two bytes, nothing changes for any chunking the plain loop accepts |
| `CompressedStream.FirstPieceLost` | src/agents/mod.rs:744-758 | an empty line and then the largest chunk the plain loop accepts: the plain loop shows an event, the other none |

## Left out

- `Drain` and `PendingRequests` are state machines over values instead of objects with locks: the interleavings are the
  point, and each action is one atomic access. Memory ordering is sequentially consistent, as the source asks for.
- Fairness of the semaphore queue, cancelled `acquire` and `request_client_permission` futures, and
  `DrainPermit::into_inner`, which nothing calls.
- Clocks: the drain timeout with its 5 to 3600 second clamp, and the permission timeout, are steps that may happen at
  any moment.
- JSON: responses, deltas and events arrive decoded, and request ids are already strings (`value_to_id`).
- `push_chunk_bytes`: replaces a character split across chunks by replacement characters before the parser sees it; the
  chunking laws are about the text given to `push_chunk`.
- Steps 1 to 3 and 6 of `extract_all_tokens` (content, reasoning, usage): field copying.
- ExtractTokens: the order of the calls emitted at a finish reason is any order, as draining a hash map is.
- DiffReadsAddedLines: like `FilesReadRightIff`, is about files with fewer lines than the largest machine integer, where
  the counter does not saturate.
- How a code block, a table and a regular line look (`render_code_block`, `render_table`, `render_inline`, widths of the
  terminal) is a parameter of the renderer, taken as a total function.
- Gzip inflation is a parameter: any function of the decoder's state and the unread input. Its end of file, would-block
  and decode errors all end the read loop and are not told apart.
- Event handlers that fail instead of asking to stop: an error leaves either loop at once.
- PlainStreamUnchanged: is for first pieces that fit; what is lost with one that does not depends on the events in it,
  and only a first chunk of one line feed before a chunk of exactly 2 MiB makes one.
- Name listings, model lists and the token cache of the registry; poisoned locks of the rotation state.
- HTTP, key rings, databases, processes, logging, the provider adapters other than Anthropic's event handler, and the
  GUI.
