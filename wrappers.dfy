/** The exceptions the analysis helpers can raise, and the shapes in which the
    model returns them: `Outcome` for the helpers that return nothing and only
    mutate, `Result` for the helpers that return a value. */
module Wrappers {

  /** Python exceptions raised by the core. */
  datatype Error =
    | KeyError(key: string)   // a dictionary lookup of a missing key
    | IndexError              // an index past the end of a list
    | ZeroDivisionError       // a division by zero

  datatype Outcome = Pass | Fail(error: Error)

  datatype Result<+T> = Success(value: T) | Failure(error: Error)

  datatype Option<+T> = None | Some(value: T)
}
