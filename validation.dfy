/// The transcript request guard (backend/src/middleware/validation.ts): four checks in
/// order, the first failure answering 400 and a pass handing the request on.
module Validation {
  import opened JsCore
  import TranscriptText

  const MaxTranscriptLength: nat := 10000

  const Required := "Transcript is required"
  const MustBeString := "Transcript must be a string"
  const CannotBeEmpty := "Transcript cannot be empty"
  const TooLong := "Transcript is too long (max 10,000 characters)"

  /** What the middleware does: call `next()`, or answer with a status and an error. */
  datatype Outcome = Next | Respond(status: nat, error: string)

  /** `validateTranscriptRequest`, on the `transcript` field of the parsed body. */
  function ValidateTranscriptRequest(transcript: JsValue): (r: Outcome)
    ensures r.Next? <==>
              transcript.Str? && !IsBlank(transcript.s) && |transcript.s| <= MaxTranscriptLength
    ensures r.Respond? ==> r.status == 400
    ensures !Truthy(transcript) ==> r == Respond(400, Required)
    ensures Truthy(transcript) && !transcript.Str? ==> r == Respond(400, MustBeString)
    ensures transcript.Str? && transcript.s != "" && IsBlank(transcript.s) ==>
              r == Respond(400, CannotBeEmpty)
    ensures transcript.Str? && !IsBlank(transcript.s) && |transcript.s| > MaxTranscriptLength ==>
              r == Respond(400, TooLong)
  {
    if !Truthy(transcript) then Respond(400, Required)
    else if !transcript.Str? then Respond(400, MustBeString)
    else if |Trim(transcript.s)| == 0 then Respond(400, CannotBeEmpty)
    else if |transcript.s| > MaxTranscriptLength then Respond(400, TooLong)
    else Next
  }

  /** A request the guard lets through always yields a transcript value object. */
  lemma AcceptedRequestMakesTranscript(transcript: JsValue)
    requires ValidateTranscriptRequest(transcript).Next?
    ensures TranscriptText.Create(Some(transcript.s)).Ok?
  {
  }
}
