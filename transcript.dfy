/**
 * The conversation transcript kept in the web session state, as values.
 *
 * The session state has two keys: `system_message`, the editable system
 * instructions, and `messages`, the role-tagged transcript replayed to the
 * completion service. Either key may be absent (a brand-new browser session).
 * Every rerun of the script first sets the transcript up (lines 30-43 of the
 * script) and then, when the user submitted a question, appends the question
 * and the streamed answer (lines 57-85). The functions below describe one run
 * on these values; the class in module Session performs it in place.
 */
module Transcript {
  import opened Wrappers
  import ReplyStream

  datatype Role = System | User | Assistant

  /** A `{"role": ..., "content": ...}` record. */
  datatype Message = Message(role: Role, content: string)

  const DefaultSystemMessage: string :=
    "You are a highly knowledgeable and precise coding assistant. "
    + "Always format your responses using Markdown. Clearly explain your reasoning, provide code blocks enclosed "
    + "in triple backticks (` ``` `), and specify the language (e.g., `cpp`). "
    + "Include comprehensive inline comments and explanations within your code."

  /** The two session-state keys; None stands for a key that is absent. */
  datatype State = State(systemMessage: Option<string>, messages: Option<seq<Message>>)

  /** The session state of a browser session that has not run the script yet. */
  const Fresh: State := State(None, None)

  /**
   * The widget values one run of the script reads: the user's edit of the
   * system-message text area (None when the user left it alone, so that the
   * text area returns the value it was given, the stored system text), whether
   * "Clear Chat" was pressed, the chat input (None when nothing was submitted)
   * and the chunks the completion service streams back.
   */
  datatype RunInput = RunInput(
    editedSystem: Option<string>,
    clearPressed: bool,
    userInput: Option<string>,
    stream: seq<ReplyStream.Chunk>)

  /** Line 43 reads `messages[0]`, so a present transcript must have a first message. */
  predicate Indexable(s: State) {
    s.messages.Some? ==> |s.messages.value| > 0
  }

  /**
   * The transcript invariant: when present, the transcript is non-empty and its
   * first message is the system message carrying the current system text.
   */
  predicate SystemFirst(s: State) {
    s.messages.Some? ==>
      && s.systemMessage.Some?
      && |s.messages.value| > 0
      && s.messages.value[0] == Message(System, s.systemMessage.value)
  }

  /** Line 57, Python truthiness of `user_input`: both None and the empty string are falsy. */
  predicate HasInput(userInput: Option<string>)
    ensures userInput.None? ==> !HasInput(userInput)
    ensures userInput == Some("") ==> !HasInput(userInput)
    ensures HasInput(userInput) ==> userInput.Some? && |userInput.value| > 0
  {
    userInput.Some? && userInput.value != ""
  }

  /** Lines 30-31: the system text gets the default only when the key is absent. */
  function Initialized(s: State): (r: State)
    ensures r.systemMessage.Some? && r.messages == s.messages
    ensures s.systemMessage.Some? ==> r == s
    ensures s.systemMessage.None? ==> r.systemMessage == Some(DefaultSystemMessage)
  {
    if s.systemMessage.None? then s.(systemMessage := Some(DefaultSystemMessage)) else s
  }

  /**
   * Line 43: the first message takes the new system text; its role, the length
   * of the transcript and every later message stay as they were.
   */
  function SyncFirst(messages: seq<Message>, systemText: string): (r: seq<Message>)
    requires |messages| > 0
    ensures |r| == |messages|
    ensures r[0].role == messages[0].role && r[0].content == systemText
    ensures forall i :: 1 <= i < |r| ==> r[i] == messages[i]
  {
    messages[0 := messages[0].(content := systemText)]
  }

  /**
   * Lines 30-43, the set-up every run performs: initialise the system text, take
   * the text area's value (the user's edit, or else the stored text it was
   * given), reset the transcript on Clear Chat, create it when absent and
   * otherwise bring its first message in line with the system text.
   */
  function SetUp(s: State, editedSystem: Option<string>, clearPressed: bool): (r: State)
    requires Indexable(s)
    ensures r.systemMessage.Some?
    ensures editedSystem.Some? ==> r.systemMessage == editedSystem
    ensures editedSystem.None? && s.systemMessage.Some? ==> r.systemMessage == s.systemMessage
    ensures editedSystem.None? && s.systemMessage.None? ==> r.systemMessage == Some(DefaultSystemMessage)
    ensures r.messages.Some? && |r.messages.value| > 0
    ensures r.messages.value[0].content == r.systemMessage.value
    ensures clearPressed || s.messages.None? ==> r.messages == Some([Message(System, r.systemMessage.value)])
    ensures !clearPressed && s.messages.Some? ==>
      && |r.messages.value| == |s.messages.value|
      && r.messages.value[0].role == s.messages.value[0].role
      && r.messages.value[1..] == s.messages.value[1..]
    ensures SystemFirst(s) ==> SystemFirst(r)
  {
    var s1 := Initialized(s);
    var s2 := s1.(systemMessage := Some(editedSystem.GetOr(s1.systemMessage.value)));
    var s3 := if clearPressed then s2.(messages := Some([Message(System, s2.systemMessage.value)])) else s2;
    if s3.messages.None? then
      s3.(messages := Some([Message(System, s3.systemMessage.value)]))
    else
      var synced := SyncFirst(s3.messages.value, s3.systemMessage.value);
      assert clearPressed ==> synced == [Message(System, s3.systemMessage.value)];
      s3.(messages := Some(synced))
  }

  /**
   * Lines 58 and 68: the transcript sent to the completion service, i.e. the
   * transcript with the question appended, or None when nothing was submitted.
   * It still opens with the same first message.
   */
  function ServiceInput(s: State, userInput: Option<string>): (request: Option<seq<Message>>)
    requires s.messages.Some?
    ensures request.Some? <==> HasInput(userInput)
    ensures request.Some? ==>
      && |request.value| == |s.messages.value| + 1
      && request.value[..|s.messages.value|] == s.messages.value
      && request.value[|s.messages.value|] == Message(User, userInput.value)
  {
    if HasInput(userInput) then Some(s.messages.value + [Message(User, userInput.value)]) else None
  }

  /**
   * Lines 57-85: a submitted question grows the transcript by exactly two, the
   * question and then the assembled answer; all earlier messages are untouched.
   * Without a (non-empty) question nothing changes.
   */
  function AfterSubmit(s: State, userInput: Option<string>, stream: seq<ReplyStream.Chunk>): (r: State)
    requires s.messages.Some?
    ensures r.systemMessage == s.systemMessage && r.messages.Some?
    ensures !HasInput(userInput) ==> r == s
    ensures HasInput(userInput) ==>
      && |r.messages.value| == |s.messages.value| + 2
      && r.messages.value[..|s.messages.value|] == s.messages.value
      && r.messages.value[|s.messages.value|] == Message(User, userInput.value)
      && r.messages.value[|s.messages.value| + 1] == Message(Assistant, ReplyStream.Reply(stream))
    ensures SystemFirst(s) ==> SystemFirst(r)
  {
    match ServiceInput(s, userInput)
    case None => s
    case Some(request) => s.(messages := Some(request + [Message(Assistant, ReplyStream.Reply(stream))]))
  }

  /**
   * One complete run of the script. Afterwards the transcript exists and opens
   * with the system text: the edited text, or, when the user left the text area
   * alone, the stored text (the default in a new session). A run that starts
   * from a state satisfying the invariant ends in one. A run with Clear Chat
   * keeps none of the old history.
   */
  function RunResult(s: State, input: RunInput): (r: State)
    requires Indexable(s)
    ensures Indexable(r) && r.messages.Some? && r.systemMessage.Some?
    ensures input.editedSystem.Some? ==> r.systemMessage == input.editedSystem
    ensures input.editedSystem.None? && s.systemMessage.Some? ==> r.systemMessage == s.systemMessage
    ensures input.editedSystem.None? && s.systemMessage.None? ==> r.systemMessage == Some(DefaultSystemMessage)
    ensures r.messages.value[0].content == r.systemMessage.value
    ensures SystemFirst(s) ==> SystemFirst(r)
    ensures input.clearPressed ==>
      r.messages.value == [Message(System, r.systemMessage.value)]
        + (if HasInput(input.userInput)
           then [Message(User, input.userInput.value), Message(Assistant, ReplyStream.Reply(input.stream))]
           else [])
  {
    var prepared := SetUp(s, input.editedSystem, input.clearPressed);
    AfterSubmit(prepared, input.userInput, input.stream)
  }

  /** The state after the runs `inputs`, one after the other. */
  function RunAll(s: State, inputs: seq<RunInput>): State
    requires Indexable(s)
    decreases |inputs|
  {
    if inputs == [] then s else RunAll(RunResult(s, inputs[0]), inputs[1..])
  }

  /** The number of runs in `inputs` that submitted a question. */
  function Submissions(inputs: seq<RunInput>): nat
  {
    if inputs == [] then 0
    else (if HasInput(inputs[0].userInput) then 1 else 0) + Submissions(inputs[1..])
  }

  /** The invariant holds after every sequence of runs from a state where it holds. */
  lemma {:induction false} RunsKeepSystemFirst(s: State, inputs: seq<RunInput>)
    requires SystemFirst(s)
    ensures SystemFirst(RunAll(s, inputs))
    decreases |inputs|
  {
    if inputs != [] {
      RunsKeepSystemFirst(RunResult(s, inputs[0]), inputs[1..]);
    }
  }

  /**
   * The system text after the runs `inputs`, starting from the text `current`:
   * each run's edit replaces it, a run without an edit keeps it.
   */
  function LastEdit(current: string, inputs: seq<RunInput>): string
    decreases |inputs|
  {
    if inputs == [] then current else LastEdit(inputs[0].editedSystem.GetOr(current), inputs[1..])
  }

  /**
   * After a non-empty sequence of runs the system text is the last edit made, or,
   * when no run edited it, the text the first run started from (the default in a
   * new session).
   */
  lemma {:induction false} LastEditDecides(s: State, inputs: seq<RunInput>)
    requires Indexable(s) && inputs != []
    ensures RunAll(s, inputs).messages.Some?
    ensures RunAll(s, inputs).systemMessage == Some(LastEdit(Initialized(s).systemMessage.value, inputs))
    decreases |inputs|
  {
    if |inputs| > 1 {
      var next := RunResult(s, inputs[0]);
      assert Initialized(next) == next;
      LastEditDecides(next, inputs[1..]);
    }
  }

  /** A sequence of runs none of which edits the system text keeps the text it started from. */
  lemma {:induction false} UneditedRunsKeepText(current: string, inputs: seq<RunInput>)
    requires forall i :: 0 <= i < |inputs| ==> inputs[i].editedSystem.None?
    ensures LastEdit(current, inputs) == current
    decreases |inputs|
  {
    if inputs != [] {
      UneditedRunsKeepText(current, inputs[1..]);
    }
  }

  /**
   * From a brand-new session, after at least one run the transcript exists and
   * opens with the system message carrying the last edit, or the default text.
   */
  lemma ReachableTranscriptsOpenWithSystem(inputs: seq<RunInput>)
    requires inputs != []
    ensures var r := RunAll(Fresh, inputs);
      && r.messages.Some? && |r.messages.value| > 0
      && r.messages.value[0] == Message(System, LastEdit(DefaultSystemMessage, inputs))
  {
    LastEditDecides(Fresh, inputs);
    RunsKeepSystemFirst(Fresh, inputs);
  }

  /** A new session in which the system text is never edited opens with the default instructions. */
  lemma UneditedSessionOpensWithDefault(inputs: seq<RunInput>)
    requires inputs != []
    requires forall i :: 0 <= i < |inputs| ==> inputs[i].editedSystem.None?
    ensures var r := RunAll(Fresh, inputs);
      r.messages.Some? && |r.messages.value| > 0 && r.messages.value[0] == Message(System, DefaultSystemMessage)
  {
    ReachableTranscriptsOpenWithSystem(inputs);
    UneditedRunsKeepText(DefaultSystemMessage, inputs);
  }

  /** The first run of a new session, with no edit and no question, leaves just the default system message. */
  lemma FirstQuietRunHoldsDefault(clearPressed: bool, stream: seq<ReplyStream.Chunk>)
    ensures RunResult(Fresh, RunInput(None, clearPressed, None, stream)).messages
      == Some([Message(System, DefaultSystemMessage)])
  {
  }

  /**
   * Without Clear Chat, history is only ever extended: every message after the
   * first survives every run, and each submission adds exactly two messages.
   */
  lemma {:induction false} HistoryIsKept(s: State, inputs: seq<RunInput>)
    requires Indexable(s) && s.messages.Some?
    requires forall i :: 0 <= i < |inputs| ==> !inputs[i].clearPressed
    ensures var r := RunAll(s, inputs);
      && r.messages.Some?
      && |r.messages.value| == |s.messages.value| + 2 * Submissions(inputs)
      && r.messages.value[1..|s.messages.value|] == s.messages.value[1..]
    decreases |inputs|
  {
    if inputs != [] {
      var next := RunResult(s, inputs[0]);
      var prepared := SetUp(s, inputs[0].editedSystem, inputs[0].clearPressed);
      assert prepared.messages.value[1..] == s.messages.value[1..];
      assert next.messages.value[..|prepared.messages.value|] == prepared.messages.value;
      assert next.messages.value[1..|s.messages.value|] == s.messages.value[1..];
      HistoryIsKept(next, inputs[1..]);
      var r := RunAll(next, inputs[1..]);
      assert r.messages.value[1..|next.messages.value|] == next.messages.value[1..];
      assert r.messages.value[1..|s.messages.value|] == r.messages.value[1..|next.messages.value|][..|s.messages.value| - 1];
    }
  }

  /**
   * Clear Chat forgets the whole history: whatever transcript, or none, the
   * session held, a run that presses Clear Chat ends in the same state.
   */
  lemma ClearForgetsHistory(s: State, history: Option<seq<Message>>, input: RunInput)
    requires Indexable(s) && (history.Some? ==> |history.value| > 0)
    requires input.clearPressed
    ensures RunResult(s, input) == RunResult(s.(messages := history), input)
  {
  }
}
