/**
 * The classification step of `grade_file` (main.py): what one grading
 * attempt reports once the remote calls are done. Uploading, polling,
 * prompting, parsing and deleting the remote file are not modelled; they are
 * summed up as the `RemoteReply` the attempt ended with.
 */
module Grading {
  import opened Wrappers
  import opened Json

  /** The dictionary `grade_file` returns: `{'status': 'success', 'data': ...}`
      or `{'status': 'failed', 'error': ...}`. */
  datatype GradeOutcome = Success(data: seq<Json>) | Failed(error: string)

  /** How one attempt against the remote service ended: one of its calls raised
      an exception (upload, a file the service reports as FAILED, generation),
      or the model replied with `text`, which `json.loads` turned into
      `Some(value)` or rejected (`None`). */
  datatype RemoteReply = Raised(message: string) | Replied(text: string, parsed: Option<Json>)

  const EmptyListError := "Grader returned an empty result list."
  const ParseErrorPrefix := "Failed to parse LLM response. Raw: "

  /** `grade_file`: a parsed non-empty list is a success carrying that list;
      a raised exception, an unparsable reply, a value that is not a list and
      an empty list are failures, each with its own message. */
  function GradeFile(reply: RemoteReply): (outcome: GradeOutcome)
    ensures outcome.Success? <==> reply.Replied? && reply.parsed.Some? && reply.parsed.value.JArray?
                                  && reply.parsed.value.items != []
    ensures outcome.Success? ==> outcome.data == reply.parsed.value.items && outcome.data != []
    ensures reply.Raised? ==> outcome == Failed(reply.message)
    ensures reply.Replied? && reply.parsed == Some(JArray([])) ==> outcome == Failed(EmptyListError)
    ensures reply.Replied? && (reply.parsed.None? || !reply.parsed.value.JArray?)
            ==> outcome == Failed(ParseErrorPrefix + reply.text)
  {
    match reply
    case Raised(message) => Failed(message)
    case Replied(text, parsed) =>
      if parsed.None? || !parsed.value.JArray? then Failed(ParseErrorPrefix + text)
      else if parsed.value.items == [] then Failed(EmptyListError)
      else Success(parsed.value.items)
  }
}
