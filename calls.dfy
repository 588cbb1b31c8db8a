/**
 * Outcomes of calls into collaborators the model does not contain: the text
 * generation call, the video search call and the caller's movie validator.
 */
module Calls {
  import opened Wrappers
  import opened Exceptions

  /** How a call can end without a value. */
  datatype Failure =
    | Raised(exception: TrailerException)  // the callee threw a TrailerException
    | TimedOut                             // the surrounding withTimeout expired
    | Crashed(message: Option<string>)     // any other exception, with its message

  /** A call either returns a value or fails. */
  datatype CallOutcome<+T> = Returned(value: T) | Failed(failure: Failure)
}
