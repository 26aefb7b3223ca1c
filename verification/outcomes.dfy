/** Failure-carrying values shared by every part of the model. */
module Outcomes {

  /** Java's Optional / nullable reference. */
  datatype Option<+T> = None | Some(value: T)

  /** A Java exception as the service raises it: its message and, optionally, the exception it wraps. */
  datatype Error = Error(message: string, cause: Option<Error>)

  /** The outcome of a call that either returns a value or throws. */
  datatype Result<+T> = Ok(value: T) | Err(error: Error)

  /** An exception with no cause. */
  function Fail(message: string): Error
  {
    Error(message, None)
  }
}
