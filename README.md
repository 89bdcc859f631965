# Copilot chat transcript: a Dafny model

`copilot-app.py` is a Streamlit chat front-end over an Azure OpenAI chat
completion deployment. Streamlit reruns the whole script on every interaction
and keeps `st.session_state` between reruns. Two of its keys carry the
conversation:

- `system_message`: the editable system instructions;
- `messages`: the transcript of `{role, content}` records that is replayed to
  the completion service.

This project models what one rerun does to those two keys and how the
streamed answer is assembled. It also proves the transcript invariant: once
the transcript exists, it is non-empty, and its first message is the `system`
message carrying the current system text.

Files:

- `wrappers.dfy`: `Option`, which stands for Python's `None`-or-value.
- `reply_stream.dfy` (module `ReplyStream`): stream chunks as datatypes. A chunk
  has a possibly empty list of choices; the first choice has an optional delta;
  the delta has an optional content string. The specification functions
  `Collected`, `Join` and `Reply` describe the list `collected_chunks` and the
  text `full_response`. The method `AssembleReply` is the collecting `for` loop,
  and it is proved to build exactly that list and text.
- `transcript.dfy` (module `Transcript`): the session state as a value (`State`,
  where `None` means a key is absent). It holds the widget values one run reads
  (`RunInput`), one function per phase of a run (`Initialized`, `SyncFirst`,
  `SetUp`, `ServiceInput`, `AfterSubmit`, `RunResult`) and lemmas about runs
  and sequences of runs.
- `session.dfy` (module `Session`): class `SessionState`, whose fields are the two
  keys and whose method `Run` performs one rerun in place, statement by
  statement in source order. It is proved to produce `RunResult`.

Python truthiness is written out:

- `not chunk.choices` is an empty choice list;
- `not chunk.choices[0].delta` is a missing delta, because a delta object is
  always truthy;
- `delta.content or ""` maps a null content to `""`;
- `if user_input:` requires an input that is present and non-empty.

The system text `system_message` gets `DEFAULT_SYSTEM_MESSAGE` only when the
key is absent (`Transcript.Initialized`). Line 34 then stores what the text area
returns. The text area is given the stored text as its value, so it returns the
user's edit if there is one and the stored text otherwise. A run's input
therefore carries the edit as an optional string (`None`: the text area was left
alone). A new session whose system text is never edited opens its transcript
with the default instructions.

The script keeps the transcript only in the session state; it has no session
persistence.

## Model

| member | source | states |
|---|---|---|
| `ReplyStream.Skipped` | copilot-app.py:75 | a chunk without choices is skipped; a chunk that is not skipped has a first choice with a delta, so line 77 can read it |
| `ReplyStream.Content` | copilot-app.py:77 | a null delta content is read as `""`; otherwise the delta's content is taken unchanged |
| `ReplyStream.Collected` | copilot-app.py:72-78 | the collected list is no longer than the stream |
| `ReplyStream.Join` | copilot-app.py:80 | the joined text's length is the sum of the pieces' lengths |
| `ReplyStream.Reply` | copilot-app.py:80 | the length of `full_response` is the sum of the lengths of the collected pieces |
| `ReplyStream.AssembleReply` | copilot-app.py:72-80 | the loop builds exactly the list `Collected(stream)`; the returned reply is `Reply(stream)`; the reply's length is the sum of the collected pieces' lengths |
| `ReplyStream.JoinConcat` | copilot-app.py:80 | joining a concatenation is the concatenation of the joins: pieces are not reordered, dropped or deduplicated |
| `ReplyStream.CollectedConcat` | copilot-app.py:72-78 | collecting a split stream is collecting each part, in arrival order |
| `ReplyStream.ReplyConcat` | copilot-app.py:72-80 | the reply of a split stream is the first part's reply followed by the second part's reply |
| `ReplyStream.CollectedSingle` | copilot-app.py:75-78 | a single chunk adds nothing when skipped; otherwise it adds exactly its content, with null read as `""` |
| `ReplyStream.ReplySnoc` | copilot-app.py:73-80 | each arriving chunk extends the reply by its own text, or by nothing when it is skipped |
| `ReplyStream.ReplyStep` | copilot-app.py:73-80 | appending a chunk to the stream extends the reply by that chunk's text, or by nothing when it is skipped |
| `ReplyStream.SkippedChunkContributesNothing` | copilot-app.py:75-76 | a chunk with no choices, or with no delta, changes neither the collected list nor the reply, wherever it occurs |
| `ReplyStream.NullContentContributesEmpty` | copilot-app.py:77-78 | a delta with null content adds one `""` to the list and nothing to the reply |
| `ReplyStream.ContentChunkAppendsInOrder` | copilot-app.py:77-80 | a delta carrying text places that text unchanged between the replies of the chunks before and after it |
| `ReplyStream.HelloWorldStream` | copilot-app.py:72-80 | `"Hel"`, `"lo"`, `", "`, `"world"`, with a choiceless chunk, a deltaless chunk and a null-content delta interspersed, assemble to `"Hello, world"` |
| `Transcript.HasInput` | copilot-app.py:57 | an absent input and the empty string are both falsy; a truthy input is a non-empty string |
| `Transcript.Initialized` | copilot-app.py:30-31 | the system text is present afterwards; it becomes the default only when absent, and an existing value is never reset; the transcript is untouched |
| `Transcript.SyncFirst` | copilot-app.py:41-43 | the sync changes only the first message's content: the length, the first role and every message at index 1 or later are unchanged |
| `Transcript.SetUp` | copilot-app.py:30-43 | after set-up the system text is the edit, or, without an edit, the stored text, or the default when none was stored; the transcript exists and is non-empty, and its first content is the system text; Clear Chat or an absent transcript leaves exactly one system message; otherwise the length, the first role and the later messages are kept; the invariant is preserved |
| `Transcript.ServiceInput` | copilot-app.py:57-58 | a request is sent exactly when the input is non-empty; it is the transcript followed by one user message |
| `Transcript.AfterSubmit` | copilot-app.py:57-85 | a submission grows the transcript by exactly two, the user message and then the assistant message holding the assembled reply; earlier messages are untouched; no input means no change; the invariant is preserved |
| `Transcript.RunResult` | copilot-app.py:30-85 | after a run the transcript exists; the system text is the edit, or, without an edit, the stored text, or the default in a new session; the first content is the system text; the invariant is preserved; an unedited run keeps the system text; after Clear Chat the transcript is the system message, plus the new exchange if there is one |
| `Transcript.RunsKeepSystemFirst` | copilot-app.py:30-85 | the invariant holds after any sequence of runs that starts where it holds |
| `Transcript.LastEditDecides` | copilot-app.py:30-34 | after any non-empty sequence of runs, the system text is the last edit made, or the text the runs started from when none edited it |
| `Transcript.UneditedRunsKeepText` | copilot-app.py:34 | runs that leave the text area alone keep the system text |
| `Transcript.ReachableTranscriptsOpenWithSystem` | copilot-app.py:30-43 | from a new session, after at least one run, the transcript's first message is the system message carrying the last edit, or the default when there was none |
| `Transcript.UneditedSessionOpensWithDefault` | copilot-app.py:30-43 | a new session whose system text is never edited opens its transcript with the default instructions |
| `Transcript.FirstQuietRunHoldsDefault` | copilot-app.py:30-43 | the first run of a new session, without an edit or a question, leaves exactly the default system message |
| `Transcript.HistoryIsKept` | copilot-app.py:39-85 | without Clear Chat, every message after the first survives every run, and each submission adds exactly two messages |
| `Transcript.ClearForgetsHistory` | copilot-app.py:36-43 | a run that presses Clear Chat ends in the same state whatever transcript, or none, the session held before |
| `Session.SessionState.constructor` | copilot-app.py:30 | a new session has neither key |
| `Session.SessionState.Run` | copilot-app.py:30-85 | the in-place run leaves the two keys exactly as `RunResult` describes, hands `ServiceInput` of the set-up state to the completion service, and preserves the invariant |

## Left out

- Page configuration, the expander, the rendering of the text area, the
  buttons, the model selectbox, containers, chat bubbles, the spinner and
  markdown rendering (lines 7, 33, 36, 45-55, 60-65, 81-83): these are UI. The
  widget values are inputs of a run (`RunInput`). The assignment of the text
  area's value on line 34 is modelled.
- Loading the environment, constructing the `AzureOpenAI` client and looking
  up `MODEL_DEPLOYMENTS` (lines 9-21): these are configuration I/O.
- The call `client.chat.completions.create(..., stream=True)` (lines 66-70):
  the network service is replaced by the input chunk sequence. The model
  records the transcript handed to it (`ServiceInput`) but not how the chunks
  depend on it.
- Stream failure: an exception raised while streaming aborts the run after
  the user message was appended. The model has no exceptions, so that
  transcript (user message without answer) is not modelled.
- `chunk.choices` being `None` rather than an empty list: both are falsy and
  are skipped the same way, so only the empty list is modelled.
- `Session.SessionState.Run`: the transcript is a `seq` value. Python's sharing
  of the list object with the request passed to the client is not modelled.
  That sharing is only observable if the client kept the list after the call.
- The unused `import re` (line 5).
