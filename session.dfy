/**
 * The script's per-session state, updated in place by one run of the script.
 */
module Session {
  import opened Wrappers
  import opened Transcript
  import ReplyStream

  /** `st.session_state`: the two keys the script reads and writes. */
  class SessionState {
    var systemMessage: Option<string>
    var messages: Option<seq<Message>>

    /** The current value of the two keys. */
    function Snapshot(): State
      reads this
    {
      State(systemMessage, messages)
    }

    /** A new browser session: neither key is present. */
    constructor ()
      ensures Snapshot() == Fresh
    {
      systemMessage := None;
      messages := None;
    }

    /**
     * One rerun of the script with the widget values of `input`. The keys end up
     * as RunResult describes; `request` is the transcript handed to the
     * completion service, or None when no question was submitted.
     */
    method Run(input: RunInput) returns (request: Option<seq<Message>>)
      requires Indexable(Snapshot())
      modifies this
      ensures Snapshot() == RunResult(old(Snapshot()), input)
      ensures request == ServiceInput(SetUp(old(Snapshot()), input.editedSystem, input.clearPressed), input.userInput)
      ensures SystemFirst(old(Snapshot())) ==> SystemFirst(Snapshot())
    {
      if systemMessage.None? {
        systemMessage := Some(DefaultSystemMessage);
      }
      systemMessage := Some(input.editedSystem.GetOr(systemMessage.value));
      if input.clearPressed {
        messages := Some([Message(System, systemMessage.value)]);
      }
      if messages.None? {
        messages := Some([Message(System, systemMessage.value)]);
      } else {
        var first := messages.value[0];
        messages := Some(messages.value[0 := first.(content := systemMessage.value)]);
      }
      ghost var prepared := Snapshot();
      assert prepared == SetUp(old(Snapshot()), input.editedSystem, input.clearPressed);

      request := None;
      if input.userInput.Some? && input.userInput.value != "" {
        messages := Some(messages.value + [Message(User, input.userInput.value)]);
        request := messages;
        var collected, fullResponse := ReplyStream.AssembleReply(input.stream);
        messages := Some(messages.value + [Message(Assistant, fullResponse)]);
      }
    }
  }
}
