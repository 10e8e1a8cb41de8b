/** What the client's async thunks (`createAsyncThunk` in
    client/src/app/features/) hand to their `rejected` reducers: the server's
    `message`, or a fixed default when there is none. */
module AsyncThunks {
  import opened Wrappers

  /** `error.response?.data?.message || fallback`: the server's message if the
      error response carries a non-empty one (None: any of the three missing),
      else the fallback. */
  function RejectPayload(message: Option<string>, fallback: string): (payload: string)
    ensures message.Some? && message.value != "" ==> payload == message.value
    ensures message.None? || message.value == "" ==> payload == fallback
  {
    if message.Some? && message.value != "" then message.value else fallback
  }

  /** With a non-empty default, a rejection always carries a non-empty payload,
      and it is one of the two candidates. */
  lemma RejectPayloadNonEmpty(message: Option<string>, fallback: string)
    requires fallback != ""
    ensures RejectPayload(message, fallback) != ""
    ensures RejectPayload(message, fallback) == fallback || Some(RejectPayload(message, fallback)) == message
  {
  }
}
