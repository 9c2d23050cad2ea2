/** Failure-compatible wrappers shared by the other modules. */
module Wrappers {

  /** A value that may be missing (Python's `Optional`). */
  datatype Option<+T> = None | Some(value: T)

  /** A value or the message of the error that replaced it. */
  datatype Result<+T, +E> = Ok(value: T) | Err(error: E)
}
