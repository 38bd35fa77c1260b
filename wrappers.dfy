/** Failure-carrying values shared by the whole model. */
module Wrappers {

  /** A value that may be absent (`null`/`undefined` in the source). */
  datatype Option<+T> = None | Some(value: T)

  /** The outcome of an operation that either yields a value or throws. */
  datatype Result<+T, +E> = Success(value: T) | Failure(error: E)

  /** An operation that yields nothing: it returns normally or throws an error with a message. */
  datatype Outcome = Pass | Fail(message: string)
}
