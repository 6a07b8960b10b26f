# debate_agent — a Dafny model of the debate core

The debate agent runs an AI debate between a moderator and two debaters.

- **Orchestrator (`debate_graph.py`).** A graph of three nodes (moderator, debater A "찬성", debater B "반대") shares one history of speaker-tagged lines.
  - The moderator reads the decision on the last line of its reply (`Decision: continue/instruction/stop`).
  - The debaters are handed the moderator's latest instruction.
  - Execution pauses after every node.
- **Server (`server.py`).** It keeps a registry of sessions. For each turn request it resumes the session's graph and relays the graph's internal events to the browser as a stream of `token`, `turn_end`, `end`, `error` and `stream_end` events.
- **Browser (`static/script.js`).**
  - It queues the relayed events and drains the queue with `processQueue`. Tokens grow message boxes through `handleToken`, and the page pauses at the end of each turn when auto-play is off.
  - It renders message text with `formatContent`.
  - It saves the chat as a Markdown transcript and loads such a transcript back with a line-based parser.

This project models that core in Dafny and proves what the code promises.

| file | module | models |
|---|---|---|
| `text.dfy` | `Text` | the string primitives both languages use: Python `split`/`strip`/`lower`, JavaScript `split`/`trim`, the `(.*)` line-head of a JavaScript regex |
| `debate_graph.dfy` | `DebateGraph` | the decision parser, `get_last_instructions`, the retrying backend call, the routing table and the `DebateApp` class whose nodes append to the history in place |
| `server.dfy` | `Server` | the event translation of `event_generator`, and the `SessionRegistry` class holding the `sessions` map |
| `transcript.dfy` | `Transcript` | role names, the save serialiser, the load parser, and the save-then-load round trip |
| `format.dfy` | `Format` | `formatContent` |
| `chat_stream.dfy` | `ChatStream` | `handleToken` and `processQueue`, as the `ChatClient` class over the page's streaming state |

Calls the model cannot see are parameters:
- The text-generation backend is a function from a prompt and an attempt number to the chunks that attempt streams and the exception, if any, that ends it.
- One graph run's internal event stream is a value: the events it emitted, plus the exception that ended it, if any.
- The session id that `uuid4` would produce is an argument.
- The chat container is the sequence of its children, each reduced to the text the save handler reads from it.

## Model

| member | source | states |
|---|---|---|
| Text.Split | debate_graph.py:79 | Python `split` with a non-empty separator: at least one piece; the text itself when the separator is absent; otherwise the first piece is the text before the first occurrence |
| Text.SplitPiecesAvoid | debate_graph.py:79 | no piece of a split contains the separator |
| Text.JoinSplit | debate_graph.py:79 | splitting and re-joining with the same separator gives the text back |
| Text.SplitOn | debate_graph.py:145 | splitting on one character gives at least one piece, and no piece holds that character |
| Text.JoinSplitOn | static/script.js:115 | splitting on one character and joining with it gives the text back |
| Text.LineHead | static/script.js:126 | the `(.*)` of a regex at the start of a text is the longest prefix without a line terminator |
| Text.TrimIsSlice | debate_graph.py:146 | the result of `strip`/`trim` is a contiguous slice of the input |
| Text.TrimAppendWhitespace | static/script.js:133 | a trailing whitespace character does not change the trim |
| DebateGraph.ReasoningDropped | debate_graph.py:139-142 | for a reasoning block, `</think>` and an answer, both the moderator and the debaters keep exactly the stripped answer (the debater cut is at lines 190-193) |
| DebateGraph.ApplyFloor | debate_graph.py:169-171 | under 6 history lines the decision is never `stop`; an early `stop` becomes `continue` with the fixed note appended; otherwise the reply is unchanged |
| DebateGraph.DecisionRules | debate_graph.py:159-171 | the fallback without a control line: `stop` exactly when the lower-cased text mentions "stop" and the history is longer than 10 lines; an empty history gives `instruction` with the whole visible text; past the floor the committed text is the visible text |
| DebateGraph.DecisionLineNotCommitted | debate_graph.py:144-158 | with a control line, the stripped reply is the body, a newline and the last line; the committed text is the stripped body, so the control line is never committed |
| DebateGraph.DecisionWordNames | debate_graph.py:148-155 | each of the words continue, instruction and stop reads back as its own decision |
| DebateGraph.RequestedControlLineReads | debate_graph.py:148-149 | `Decision: <word>` holds the marker, and its decision is the decision the word names |
| DebateGraph.RequestedFormatParses | debate_graph.py:139-171 | a reply in the format the prompts request (a stripped utterance, a newline, `Decision: <word>`) is committed as that utterance with that decision, subject only to the floor |
| DebateGraph.InstructionOf | debate_graph.py:79-82 | the instruction taken from a tagged line never holds `Decision:` and is stripped at both ends |
| DebateGraph.GetLastInstructions | debate_graph.py:76-84 | the instruction a debater receives never holds `Decision:` |
| DebateGraph.NewestTaggedLineWins | debate_graph.py:76-83 | the instruction comes from the newest line holding `사회자:`, however many untagged lines follow it |
| DebateGraph.UntaggedLinesSkipped | debate_graph.py:77-78 | lines newer than a given line that lack the tag do not change the result |
| DebateGraph.NoTaggedLineNoInstruction | debate_graph.py:84 | with no tagged line the instruction is empty |
| DebateGraph.ModeratorLineSplits | debate_graph.py:79 | a moderator line splits on the tag into "" and the text after it |
| DebateGraph.InstructionHandOff | debate_graph.py:173-185 | after the moderator appends `사회자: text`, the next debater is handed exactly `text` (if it is stripped and holds neither the tag nor the marker) |
| DebateGraph.FinalAttempt | debate_graph.py:100-104 | the attempt that ends a call is below 10; all attempts before it raised `ResourceExhausted`, and it raised that only if it is the tenth |
| DebateGraph.InvokeLlm | debate_graph.py:100-109 | 1 to 10 attempts, all but the last exhausted; a successful attempt returns its chunks concatenated in order, another exception is re-raised at once, and exhausting the tenth gives the retry error |
| DebateGraph.DecideContinue | debate_graph.py:212-213 | the route is "end" exactly on a `stop` decision, and "continue" otherwise |
| DebateGraph.ModeratorEveryThirdStep | debate_graph.py:208-224 | from the entry point, without `stop`, the graph visits moderator, debater A, debater B, in that order, for ever |
| DebateGraph.EndIsFinal | debate_graph.py:215-222 | no step leaves the end |
| DebateGraph.ModeratorOutcome | debate_graph.py:115-174 | with 100 or more history lines the moderator commits the closing remark with `stop`; a committed `stop` needs at least 6 lines |
| DebateGraph.DebateApp.constructor | debate_graph.py:86 | a fresh graph keeps the model, provider and key, has an empty history and nothing pending |
| DebateGraph.DebateApp.ModeratorNode | debate_graph.py:111-174 | at the ceiling, no backend call and one closing line; otherwise exactly one line `사회자: text` is appended and the decision is recorded, or on an exception nothing changes |
| DebateGraph.DebateApp.ModeratorReplyTurn | debate_graph.py:120-174 | below the ceiling: one backend call, whose parsed reply appends one line and sets the decision |
| DebateGraph.DebateApp.DebaterNode | debate_graph.py:176-196 | exactly one line `name: stripped answer` is appended, and earlier lines are untouched; on an exception the history is unchanged |
| DebateGraph.DebateApp.Step | debate_graph.py:224-234 | a resume runs exactly the pending node and pauses: the moderator appends its line and records its decision, a debater appends its line and leaves the decision as it was, and the next node is set by the routing table from that decision; an exception leaves state and pending node as they were |
| DebateGraph.DebateApp.Resume | debate_graph.py:224-234 | fresh input restarts at the moderator with that history and topic, no input continues from the pending node; either way the node then run appends exactly its line to that history, the moderator alone records a decision, the next node follows the routing table, and an exception leaves the history, the decision and the node that was run pending |
| Server.OrDefault | server.py:58-59 | a missing key takes its default, a key sent as `null` reads as None, and a string is kept |
| Server.RoleOfNode | server.py:112-122 | a node has a role exactly when it is one of the three graph nodes, and the role is moderator, proponent or opponent |
| Server.TranslatedBody | server.py:105-142 | the relayed events of a run hold no error event and no `stream_end` |
| Server.RelayedTokensWellFormed | server.py:109-136 | every relayed token has one of the three roles and non-empty content; every `turn_end` carries a graph node name |
| Server.EndFollowsModeratorTurn | server.py:131-142 | an `end` event always comes right after the moderator's `turn_end` |
| Server.TranslateTokenText | server.py:109-128 | one internal event relays as token text exactly the chunk a graph node streamed, and nothing else |
| Server.TokensCarryNodeText | server.py:105-128 | the relayed tokens carry exactly the graph nodes' streamed text, in order |
| Server.TurnStreamShape | server.py:102-154 | a turn's stream ends with exactly one `stream_end`; it holds an error event exactly when the run raised, and that event comes just before the `stream_end` |
| Server.SessionRegistry.constructor | server.py:52 | the registry starts empty |
| Server.SessionRegistry.StartDebate | server.py:54-77 | registers a fresh graph under the id, with the topic, turn count 0, and model and provider defaulting to qwq and ollama only when their keys are missing (a `null` value is kept as None); other sessions are unchanged |
| Server.SessionRegistry.NextTurn | server.py:79-156 | an unknown id gives not-found and changes nothing; otherwise fresh inputs exactly on turn 0, the stream of that turn, and a turn count that rises by one exactly when the run did not raise |
| Transcript.MapRoleToInternal | static/script.js:151-156 | each internal role comes from exactly its Korean or English name; any other name gives "unknown" |
| Transcript.GetDisplayRole | static/script.js:181-186 | the three roles get names that map back to them; other roles are shown unchanged |
| Transcript.DisplayRoleRoundTrip | static/script.js:151-186 | a role name mapped in and out comes back unchanged exactly when it is a Korean name |
| Transcript.MatchRoleLine | static/script.js:126-129 | a match splits the line head into `**`, the role, the last `**: ` and a first line without `**: `; no match means the line head does not start with `**` or has no `**: ` from index 2 |
| Transcript.MatchesRoleLine | static/script.js:126-129 | a one-line `**role**: first` with no `**: ` in `first` matches with exactly that role and first line |
| Transcript.NoSeparatorNoMatch | static/script.js:126-129 | a line without `**: ` is not a role line |
| Transcript.TopicOf | static/script.js:120-123 | the topic is found exactly when the text holds `# Debate Topic: ` |
| Transcript.ParseAndLoadDebate | static/script.js:112-149 | the loop's topic and messages are the ones the line-by-line parse defines |
| Transcript.OneMessagePerRoleLine | static/script.js:128-148 | loading gives one message per role line, in order, with that line's internal role |
| Transcript.MessageCount | static/script.js:128-148 | the number of messages loaded is the number of role lines |
| Transcript.LeadingLinesIgnored | static/script.js:139-142 | lines before the first role line are ignored |
| Transcript.CollectedLines | static/script.js:139-142 | non-role lines are appended, in order, to the message being collected |
| Transcript.Serialize | static/script.js:72-80 | a saved file ends with a line break |
| Transcript.SaveMarkdown | static/script.js:65-80 | nothing is saved from an empty chat or one holding only the welcome message; otherwise the header and one block per message, in order |
| Transcript.SaveStep | static/script.js:74-79 | each message child adds its block to the file, and any other child adds nothing |
| Transcript.SerializedLines | static/script.js:72-78 | the lines of a saved file are the header, a blank line, each message's lines followed by a blank line, and a final empty line |
| Transcript.BlockStep | static/script.js:128-142 | the lines of one saved message flush the message being collected and collect this one |
| Transcript.HeaderPrefix | static/script.js:72 | every saved file starts with its header line and a line break |
| Transcript.TopicRoundTrip | static/script.js:120-123 | loading a saved file gives back the topic, trimmed, or "Untitled" |
| Transcript.MessagesRoundTrip | static/script.js:112-148 | loading a saved file gives back the saved messages, with their roles mapped to internal names |
| Transcript.SaveLoadRoundTrip | static/script.js:65-156 | save then load gives back the same topic, trimmed, and the same messages, provided that each role is a display name and each text is trimmed, breaks lines only with `\n` and holds no `**: ` |
| Format.CloseAt | static/script.js:559 | the lazy `(.*?)` stops at the first `**` that has no line terminator before it; it finds none exactly when every later `**` has a line terminator before it |
| Format.ReplaceNewlines | static/script.js:560 | no line break is left; a text without one is unchanged |
| Format.ReplaceNewlinesIsJoin | static/script.js:560 | replacing line breaks is splitting at them and joining with `<br>` |
| Format.FormatContent | static/script.js:555-561 | the formatted message is the bold rendering's lines joined with `<br>`, with no line breaks left |
| Format.BoldPlain | static/script.js:559 | a text without `**` gets no bold span |
| Format.PlainTextShownAsIs | static/script.js:555-561 | a text with neither `**` nor a line break is shown as it is |
| Format.BoldAfterPlain | static/script.js:559 | a prefix without `*` is shown as it is, ahead of the rendering of the rest |
| Format.BoldSpan | static/script.js:559 | `**x**` with no `*` or line terminator in x becomes `<strong>x</strong>`, and the scan goes on after it |
| ChatStream.AddChunk | static/script.js:463-478 | a token leaves at least one box, whose last box has the token's role, and opens at most one box |
| ChatStream.Extend | static/script.js:463-478 | after chunks arrive, at most one box per chunk has been added, and the last box has the last chunk's role |
| ChatStream.ExtendTwice | static/script.js:463-478 | chunks arriving in two runs fill the same boxes as all of them in one |
| ChatStream.BoxesExtend | static/script.js:463-478 | a page showing the boxes of some chunks shows, after more arrive, the boxes of all of them |
| ChatStream.BoxesKeepAllText | static/script.js:463-478 | the boxes together hold every token's content, in order, with nothing lost or repeated |
| ChatStream.BoxRolesAlternate | static/script.js:464-470 | the boxes' roles are the tokens' roles with repeats collapsed, so neighbouring boxes never share a role |
| ChatStream.AddChunkRoles | static/script.js:464-470 | a token of the last box's role keeps every box's role; any other token opens a box after them |
| ChatStream.TokenTracked | static/script.js:463-475 | the buffer and current role follow the last box through a token |
| ChatStream.FirstStreamEnd | static/script.js:384 | the index of the first `stream_end`, with none before it |
| ChatStream.Consumed | static/script.js:372-373 | a run takes no more events than are queued |
| ChatStream.ManualRunStopsAtStreamEnd | static/script.js:372-393 | in manual mode a run takes no `stream_end` but its last event; events stay queued only behind a `stream_end`, which the run took exactly when the queue held one |
| ChatStream.AutoPlayRunDrains | static/script.js:372-399 | in auto-play a run takes every queued event |
| ChatStream.WaitingOnlyAtStreamEnd | static/script.js:377-421 | events other than `stream_end` leave the waiting flag as it was |
| ChatStream.ManualRunWaits | static/script.js:384-394 | after a manual run the page waits for the next button exactly when the queue held a `stream_end` |
| ChatStream.TokenStep | static/script.js:377-379 | handling one more event adds its chunk to the boxes exactly when it is a token |
| ChatStream.ChatClient.constructor | static/script.js:249-257 | an empty page: no boxes, an empty queue, not processing and not waiting |
| ChatStream.ChatClient.HandleToken | static/script.js:463-478 | the token arrives on the boxes, and the current role and buffer stay those of the last box |
| ChatStream.ChatClient.HandleEvent | static/script.js:377-421 | one event changes the controls as its type prescribes, and the boxes only when it is a token |
| ChatStream.ChatClient.EndStream | static/script.js:384-399 | `stream_end` closes the stream; in manual mode the page waits with the next button enabled, in auto-play a next turn is scheduled |
| ChatStream.ChatClient.CloseSession | static/script.js:401-420 | `end` and `error` close the stream, reset the buttons, hide the indicator, add the note and end the session |
| ChatStream.ChatClient.ProcessQueue | static/script.js:364-429 | a run that finds the page processing or waiting changes nothing; otherwise it takes the events `Consumed` counts, in FIFO order, applies them, and clears the processing flag |
| ChatStream.ChatClient.DrainQueue | static/script.js:372-422 | the loop takes the queue's first `Consumed` events in order, applies them to the controls and the boxes, and leaves the rest queued |
| ChatStream.ChatClient.TakeNext | static/script.js:373-379 | one pass takes the front event off the queue and applies it |
| ChatStream.ChatClient.OnMessage | static/script.js:335-339 | a message joins the end of the queue, and a run then takes the events `Consumed` counts and adds their tokens to the boxes, and the processing flag is cleared; while a run is busy or waiting for Next, the message only waits in the queue and the boxes, the controls and the processing flag stay as they were |

## Left out

- Prompt wording (debate_graph.py:18-74). Prompts are values of an opaque `Prompt` type that records only which template and which fields were used.
- Backend construction and the missing-key warning (debate_graph.py:88-95). The backend is a parameter.
- Tenacity's wait schedule (4 to 60 seconds, exponential). Time is not modelled; only the retry predicate and the 10-attempt bound are.
- LangGraph internals: compilation, the `MemorySaver` checkpointer, `thread_id` and `recursion_limit`. The class `DebateApp` holds the checkpointed state itself, and `Step` is the graph's single-node resume.
- The home page, `/models` listing, static files, templates, `uvicorn`, and the SSE text framing (`data: …\n\n` of JSON).
- Server.SessionRegistry.StartDebate: a request value that is neither a string nor `null` (a number, a list) is not modelled; `StartRequest` holds only missing, `null` or string values.
- `uuid4`: the id is an argument. `StartDebate` does not check that the id is new, because uuid collisions are not modelled.
- Logging and `print`.
- The parts of static/script.js outside the named core: the settings modal, `localStorage`, reading mode, `fetchModels`, form submission, `startDebate`, `streamTurn`, the `EventSource` error handler, `stopDebate`, the auto-play toggle, the next button, the Enter key, `setLoading` and scrolling. They are DOM and network glue. `setTimeout(streamTurn, 500)` is counted as a scheduled turn.
- The `catch` branch of `processQueue`: no handler in the model can throw. `finally` clearing the flag is modelled.
- The order of system notes relative to message boxes in the chat container. The model keeps them in two separate sequences.
- Rendering: `innerHTML`, and the `innerText` the save handler reads back. A saved message's text is the text `innerText` would return; the round trip starts from that text.
- `appendMessage` during a load: the loaded messages are returned instead of rendered.
- Concurrency: overlapping sessions, overlapping turn requests, transport disconnect and cancellation. The browser's re-entrancy guard is modelled by the processing flag.
- Python `lower()` is modelled on ASCII letters only. No non-ASCII character lower-cases into a run that completes "stop" or "instruction": U+0130 becomes "i" followed by a combining dot, and U+212A becomes "k". So whether the lower-cased text contains those words is decided correctly.
- DebateGraph.DebateApp.ModeratorNode: the number of backend attempts is only bounded (0 at the ceiling, otherwise 1 to 10). The exact count is stated by `DebateGraph.InvokeLlm`.

## Notes on the code

Behaviours of the code a reader may not expect:

- **Turn ceiling.** It compares the history length, not a turn counter, with 100 (debate_graph.py:115).
- **Pause points.** `interrupt_after` names all three nodes (debate_graph.py:231-234). So each turn request runs exactly one node, not a moderator–A–B cycle.
- **Fallback path.** Without a control line on the last line, the moderator commits its visible text unstripped (debate_graph.py:166). That text can still hold a `Decision:` line that is not the last one.
- **Parsing the decision.** `split('Decision:')[1]` is the text between the first and any second marker, not everything after the first (debate_graph.py:149). The same holds for the moderator tag (debate_graph.py:79).
- **Retry bound.** The policy allows 10 attempts (debate_graph.py:103), although the comment at debate_graph.py:98 says 5.
- **`end` event.** It is sent only on the moderator's chain end with decision `stop`, right after its `turn_end` (server.py:138-142).
- **Saving while "Thinking" is shown.** The thinking indicator carries the `message` class but has no role element, so the save handler throws on it (static/script.js:75-76, 503). `Transcript.SaveMarkdown` returns `SaveFailed` in that case.
