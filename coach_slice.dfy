/** The `coach` state slice of the client
    (client/src/app/features/coachSlice.js): the chat transcript, a typing
    flag and the last error. Sending a message ends, either way, with exactly
    one assistant message appended. */
module CoachSlice {
  import opened Wrappers
  import opened PyText
  import opened AsyncThunks

  /** A transcript entry `{role, content}`. */
  datatype Message = Message(role: string, content: string)

  /** The whole slice as one value. */
  datatype Coach = Coach(chatHistory: seq<Message>, isTyping: bool, error: Option<string>)

  /** `initialState` (lines 4-8). */
  const InitialState := Coach([], false, None)

  /** The default of `sendMessage` (line 17). */
  const SendFailed := "Failed to send message"

  const ApologyPrefix := "Sorry, something went wrong. Please try again. ("
  const ApologySuffix := ")"

  /** Line 62: the assistant message appended when a send fails. */
  function ApologyText(payload: string): (t: string)
    ensures |t| == |ApologyPrefix| + |payload| + |ApologySuffix|
    ensures StartsWith(t, ApologyPrefix) && EndsWith(t, ApologySuffix)
  {
    ApologyPrefix + payload + ApologySuffix
  }

  /** The payload an apology was made from: the text between the fixed
      opening and the closing parenthesis. */
  function ApologyPayload(t: string): (p: Option<string>)
    ensures p.Some? ==> |t| == |ApologyPrefix| + |p.value| + |ApologySuffix|
  {
    if StartsWith(t, ApologyPrefix) && |t| > |ApologyPrefix| && EndsWith(t, ApologySuffix) then
      Some(t[|ApologyPrefix|..|t| - |ApologySuffix|])
    else None
  }

  /** The payload can be read back from the apology, so distinct errors give
      distinct messages. */
  lemma ApologyRoundTrip(payload: string)
    ensures ApologyPayload(ApologyText(payload)) == Some(payload)
  {
    var t := ApologyText(payload);
    assert t[|ApologyPrefix|..|t| - |ApologySuffix|] == payload;
  }

  lemma ApologyInjective(p1: string, p2: string)
    requires ApologyText(p1) == ApologyText(p2)
    ensures p1 == p2
  {
    ApologyRoundTrip(p1);
    ApologyRoundTrip(p2);
  }

  /** The apology shows the error it was made from. */
  lemma ApologyShowsPayload(payload: string)
    ensures Contains(ApologyText(payload), payload)
  {
    var t := ApologyText(payload);
    var i := |ApologyPrefix|;
    assert t[i..][..|payload|] == payload;
    ContainsAt(t, payload);
  }

  /** The slice's store: the fields the reducers assign in place. */
  class CoachStore {
    var chatHistory: seq<Message>
    var isTyping: bool
    var error: Option<string>

    function State(): Coach
      reads this
    {
      Coach(chatHistory, isTyping, error)
    }

    constructor ()
      ensures State() == InitialState
    {
      chatHistory, isTyping, error := [], false, None;
    }

    /** `addUserMessage` (lines 26-28): `push` at the end. */
    method AddUserMessage(message: Message)
      modifies this
      ensures State() == old(State()).(chatHistory := old(chatHistory) + [message])
    {
      chatHistory := chatHistory + [message];
    }

    /** `clearError` (lines 29-31). */
    method ClearError()
      modifies this
      ensures State() == old(State()).(error := None)
    {
      error := None;
    }

    /** `setTyping` (lines 32-34). */
    method SetTyping(typing: bool)
      modifies this
      ensures State() == old(State()).(isTyping := typing)
    {
      isTyping := typing;
    }

    /** `clearChat` (lines 35-37): the transcript only. */
    method ClearChat()
      modifies this
      ensures State() == old(State()).(chatHistory := [])
    {
      chatHistory := [];
    }

    /** `resetChat` (lines 38-42): back to the initial state. */
    method ResetChat()
      modifies this
      ensures State() == InitialState
    {
      chatHistory := [];
      isTyping := false;
      error := None;
    }

    /** `sendMessage.pending` (lines 46-49): the transcript is untouched. */
    method SendPending()
      modifies this
      ensures State() == old(State()).(isTyping := true, error := None)
    {
      isTyping := true;
      error := None;
    }

    /** `sendMessage.fulfilled` (lines 50-56), for the reply `aiResponse`. */
    method SendFulfilled(aiResponse: string)
      modifies this
      ensures State() == old(State()).(isTyping := false, chatHistory := old(chatHistory) + [Message("assistant", aiResponse)])
      ensures |chatHistory| == |old(chatHistory)| + 1 && chatHistory[..|old(chatHistory)|] == old(chatHistory)
    {
      isTyping := false;
      chatHistory := chatHistory + [Message("assistant", aiResponse)];
    }

    /** `sendMessage.rejected` (lines 57-64), with the thunk's payload for the
        server message `message` (line 17). */
    method SendRejected(message: Option<string>)
      modifies this
      ensures var payload := RejectPayload(message, SendFailed);
        State() == old(State()).(isTyping := false, error := Some(payload),
                                 chatHistory := old(chatHistory) + [Message("assistant", ApologyText(payload))])
      ensures |chatHistory| == |old(chatHistory)| + 1 && chatHistory[..|old(chatHistory)|] == old(chatHistory)
    {
      var payload := RejectPayload(message, SendFailed);
      isTyping := false;
      error := Some(payload);
      chatHistory := chatHistory + [Message("assistant", ApologyText(payload))];
    }
  }
}
