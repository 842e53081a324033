/** `parseTasks` (lab1/src/tasksRepository.js): from the file's text to a
    validated list of task records. */
module TaskParser {
  import opened Wrappers
  import opened Text
  import opened Json
  import opened TaskValidator
  import opened RepositoryErrors

  const InvalidFormatMessage: string := "Invalid tasks.json format"
  const MalformedJsonDetails: string := "tasks.json contains malformed JSON"

  /** The text the catch block looks for to tell a schema error from a
      JSON syntax error. */
  const SchemaMarker: string := "Task at index"

  /** The catch block: whatever was thrown becomes "Invalid tasks.json
      format" with status 500; its details are the thrown message when that
      message mentions "Task at index", and a fixed text otherwise. */
  function FormatError(thrown: string): RepoError
  {
    Failure(InvalidFormatMessage, 500, Some(if Contains(thrown, SchemaMarker) then thrown else MalformedJsonDetails))
  }

  /** `parseTasks(raw)`. */
  function ParseTasks(raw: string, codec: Codec): (r: Result<seq<Json>, RepoError>)
    // Whatever is returned passes the validator, record by record.
    ensures r.Ok? ==> forall k :: 0 <= k < |r.value| ==> IsValidTask(r.value[k])
    // Every failure is "Invalid tasks.json format", status 500, with details.
    ensures r.Err? ==>
              && r.error.Failure? && r.error.message == InvalidFormatMessage
              && r.error.statusCode == 500 && r.error.details.Some?
    // Valid JSON that is not an array reads as an empty list, not as an error.
    ensures codec.parse(raw).Parsed? && !codec.parse(raw).value.JArray? ==> r == Ok([])
    // An array is returned as it is exactly when every record in it is valid ...
    ensures codec.parse(raw).Parsed? && codec.parse(raw).value.JArray? ==>
              var tasks := codec.parse(raw).value.elems;
              && (r.Ok? <==> forall k :: 0 <= k < |tasks| ==> IsValidTask(tasks[k]))
              && (r.Ok? ==> r.value == tasks)
    // ... and otherwise the details are the message of the first invalid record.
    ensures codec.parse(raw).Parsed? && codec.parse(raw).value.JArray? ==>
              var check := ValidateAll(codec.parse(raw).value.elems, 0);
              check.Fail? ==> r == Err(Failure(InvalidFormatMessage, 500, Some(check.error.Message())))
    // Malformed JSON gets the fixed details, unless the engine's own message
    // happens to mention "Task at index", in which case that message is kept.
    ensures codec.parse(raw).SyntaxError? ==>
              var message := codec.parse(raw).message;
              r == Err(Failure(InvalidFormatMessage, 500,
                               Some(if Contains(message, SchemaMarker) then message else MalformedJsonDetails)))
  {
    match codec.parse(raw)
    case SyntaxError(message) => Err(FormatError(message))
    case Parsed(parsed) =>
      if !parsed.JArray? then Ok([])
      else
        match ValidateAll(parsed.elems, 0)
        case Pass => Ok(parsed.elems)
        case Fail(e) =>
          PrefixIsContained(e.Message(), SchemaMarker);
          Err(FormatError(e.Message()))
  }
}
