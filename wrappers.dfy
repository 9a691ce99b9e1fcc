/** Failure-carrying values used for the handlers' alert messages. */
module Wrappers {

  datatype Option<+T> = None | Some(value: T)

  /** A computation that either produces a value or stops with a message. */
  datatype Result<+R, +E> = Success(value: R) | Failure(error: E)

  /** A check that either passes or fails with a message. */
  datatype Outcome<+E> = Pass | Fail(error: E)
}
