# Conversation engine of the streaming chat client

This project models the conversation state machine of the chat component in
`src/components/Generator.tsx`. The component keeps its state in reactive signals:

- the stored conversation `messageList`;
- the system directive `currentSystemRoleSettings`;
- the in-progress assistant reply `currentAssistantMessage`;
- the `loading` flag;
- the `AbortController` of the running request;
- the forced-assistant toggle.

User handlers and the stream read loop update these signals. In the model they are the fields
of one class, `Generator.ConversationEngine`, with one method per handler.

- `messages.dfy` (module `Messages`): roles and messages, the request list sent to
  the endpoint (the directive unshifted in front when set) and the content the
  request signature covers.
- `stream.dfy` (module `Stream`): how one decoded fragment grows the reply buffer,
  including the rule that drops a lone newline after a newline. It also holds
  `ReadLoop`, a function that specifies the `while (!done)` read loop over the
  reader results the stream delivers.
- `generator.dfy` (module `Generator`): the class. `Valid()` is its object
  invariant. A controller exists exactly while `loading` is on, and the stored
  conversation never holds a system message. Every method keeps this invariant
  and states every field's new value. A ghost field `inFlight` records whether a
  `requestWithLatestMessage` call is still running. The stream events
  (`ConsumeStream`, `FailRequest`) can only happen while it is set.
- `scenarios.dfy` (module `Scenarios`): client methods that each replay one
  behaviour of the component using the contracts alone. They cover a forced pair on an empty
  conversation, the set-once directive, submit/stream/retry, stop with partial
  text, and an empty reply that leaves the component stuck.

The events of one request are separate method calls: `StartRequest` (the synchronous
part of `requestWithLatestMessage` up to the fetch), `ConsumeStream` (the read loop
over the results delivered so far, then the archive step once the reader reports
`done`), `FailRequest` (the `catch` block) and `StopStreamFetch` (the stop button).
`StartRequest` sets `inFlight`. A `ConsumeStream` that sees `done` clears it, and so
does `FailRequest`. Stop leaves it set, because the aborted read still ends in the `catch`.

The model follows the code as written. Where that code is surprising:

- `ArchiveCurrentMessage` does nothing when the buffer is empty. A stream that ends
  without text therefore leaves `loading` on and the controller set, and loading
  stays on for good:
  - the read loop has ended outside the `try` block, so its `catch` can no longer run;
  - send, clear and the forced-assistant toggle are hidden while loading
    (src/components/Generator.tsx:244-252);
  - stop, retry and the set-once directive all keep this state.

  `ConversationEngine.Stuck()` names the state, and those three methods promise
  to preserve it. `Scenarios.EmptyReplyKeepsLoading` reaches it.
- The `catch` path keeps the partial buffer. It only clears `loading` and the controller.
- `Clear` leaves `loading` and the controller as they are. It does not cancel anything.
- The set-once directive checks only that the value is a string and that no
  directive is set. It does not check that the conversation is empty. It is the
  clear button's `oncontextmenu` handler. A right-click passes an event object,
  which is ignored. The script embedded in the markup, which is not modelled,
  calls the same handler with a string. The model takes the value as a
  `JsValue`.
- The read loop's `continue` on a dropped newline also skips `done = readerDone`.
  A result that carries a dropped newline together with `done` therefore does not end
  the loop (`Stream.SkippedReadKeepsLoopOpen`). This quirk exists in the code, but a
  conforming stream reader never triggers it. Such a reader delivers its end as a
  result with no value and `done` set.
- `forceAssistant` checks only the forced reply for emptiness. The user text is
  checked by `handleButtonClick` before the call.

## Model

| member | source | states |
|---|---|---|
| `Messages.BuildRequestMessages` | src/components/Generator.tsx:105-111 | the request list is the stored list with exactly one `{system, setting}` in front when the setting is non-empty, and the stored list unchanged otherwise |
| `Messages.SignedContentOfRequest` | src/components/Generator.tsx:119-122 | the signed text is the last stored message's content; with nothing stored it is the directive, or `''` when none is set |
| `Messages.RequestHasAtMostOneSystemMessage` | src/components/Generator.tsx:105-111 | over a conversation without system messages, the request list has one system message if the directive is set and none otherwise, and only at index 0 |
| `Stream.AcceptFragment` | src/components/Generator.tsx:139-147 | the buffer either stays or becomes `buffer + fragment`; it stays exactly when the fragment is empty or a lone newline after a trailing newline |
| `Stream.NewlineNeverDoubles` | src/components/Generator.tsx:141-143 | a lone-newline fragment yields a buffer ending in `"\n\n"` only if the buffer already did |
| `Stream.NoBlankLineKept` | src/components/Generator.tsx:137-150 | fragments that are lone newlines or newline-free text never introduce two consecutive newlines |
| `Stream.AccumulateExtends` | src/components/Generator.tsx:144-146 | received text is never removed: the earlier buffer is a prefix of the later one |
| `Stream.AccumulateAppendsInOrder` | src/components/Generator.tsx:144-146 | without lone-newline fragments the buffer is the old buffer followed by all fragments in arrival order |
| `Stream.AccumulateExamples` | src/components/Generator.tsx:139-147 | `"a"`, `"\n"`, `"b"` give `"a\nb"`; further lone newlines after `"a\n"` are dropped |
| `Stream.ReadLoop` | src/components/Generator.tsx:135-150 | the loop consumes at most the results given; when it did not end, it consumed them all; when it ended, the last result it consumed carries `done` |
| `Stream.ReadLoopStopsAtFirstEnd` | src/components/Generator.tsx:137-150 | among the consumed results, exactly the last one ends the loop when it ended and none does otherwise, each judged on the buffer the loop holds when it arrives |
| `Stream.ReadLoopAccumulates` | src/components/Generator.tsx:137-150 | the loop's buffer is the fragment accumulation of exactly the results it consumed |
| `Stream.SkippedReadKeepsLoopOpen` | src/components/Generator.tsx:141-149 | a dropped newline that arrives with `done` does not end the loop |
| `Generator.ConversationEngine.constructor` | src/components/Generator.tsx:12-17 | initial state: empty conversation, directive and buffer, not loading, no controller |
| `Generator.ConversationEngine.BuildRequestList` | src/components/Generator.tsx:105-111 | the copied-and-unshifted list equals `BuildRequestMessages` of the stored list and directive, and nothing is modified |
| `Generator.ConversationEngine.StartRequest` | src/components/Generator.tsx:98-122 | loading on, buffer emptied, a fresh unaborted controller; the request carries the built list and signs the last stored content |
| `Generator.ConversationEngine.HandleButtonClick` | src/components/Generator.tsx:43-65 | empty input changes nothing; forced mode appends the pair (or nothing) and sends nothing; otherwise exactly one `{user, input}` is appended and a request whose signed content is the input starts |
| `Generator.ConversationEngine.ForceAssistant` | src/components/Generator.tsx:67-89 | with a non-empty reply the conversation gains exactly `{user, message}` then `{assistant, reply}`; with an empty reply nothing changes; no request either way |
| `Generator.ConversationEngine.ConsumeStream` | src/components/Generator.tsx:133-157 | only while a request runs; the buffer follows `ReadLoop`; when the reader ends, the request is over, a non-empty reply is archived and loading ends, and an empty one leaves loading and the controller set |
| `Generator.ConversationEngine.FailRequest` | src/components/Generator.tsx:151-156 | only while a request runs; the request is over, loading off and no controller; conversation and buffer unchanged, nothing archived |
| `Generator.ConversationEngine.ArchiveCurrentMessage` | src/components/Generator.tsx:160-174 | a non-empty buffer becomes one appended `{assistant, buffer}`, the buffer empties, loading and controller clear; an empty buffer changes nothing |
| `Generator.ConversationEngine.Clear` | src/components/Generator.tsx:176-182 | conversation `[]`, buffer and directive `''`; loading and controller unchanged |
| `Generator.ConversationEngine.LocalSetCurrentSystemRoleSettings` | src/components/Generator.tsx:184-189 | the directive becomes the value only when it is a string and no directive is set; otherwise it keeps its old value; a stuck component stays stuck |
| `Generator.ConversationEngine.StopStreamFetch` | src/components/Generator.tsx:191-196 | no controller: nothing changes; otherwise the controller is aborted and the archive step runs (partial text kept; an empty buffer leaves the aborted controller and loading in place); a stuck component stays stuck |
| `Generator.ConversationEngine.RetryLastFetch` | src/components/Generator.tsx:198-207 | no-op unless the last message is an assistant's; then exactly that message is removed, the prefix kept, and a request over the prefix starts; a stuck component stays stuck |
| `Generator.ConversationEngine.ToggleForcedAssistant` | src/components/Generator.tsx:287 | flips the forced-assistant flag and nothing else |

## Left out

- Network: the `fetch` to `/api/generate`, the response status and body checks, and the abort signal's effect on the transport. A failed response, a missing body or a read error is the call `FailRequest`. The results the reader delivers are the input of `ConsumeStream`.
- Decoding: `TextDecoder` is a foreign library, so results carry already-decoded text. As written, each chunk is decoded without the streaming option, so a character split across chunks is not reassembled. The model cannot show this.
- The signature from `generateSignature`, the time stamp from `Date.now()` and the password read from `localStorage` are opaque or I/O. The model only states which text is signed.
- Persistence: the rehydration in `onMount` and the save in `handleBeforeUnload` are storage I/O. A rehydrated conversation could hold system messages, which `Valid()` excludes.
- The scroll throttle, focus, text-area clearing and resizing, analytics tracking, `handleKeydown` and the markup are UI. The two text areas' contents are parameters.
- `systemRoleEditing` only disables controls in the markup.
- The script embedded in the markup is not part of the conversation engine and is not modelled.
- Concurrency: stop racing with the aborted read loop that then lands in `catch` is an async interleaving. Stop, stream end and failure are separate atomic calls. `inFlight` tracks one request. When a new request starts before an aborted one has reached its `catch`, the later `catch` of the old request also clears the new request's loading flag and controller. The model does not capture that. The loop's `await` points are not modelled, so no other handler runs inside one `ConsumeStream` call.
