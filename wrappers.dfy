/** Failure-carrying values shared by every module of the model. */
module Wrappers {

  /** A value that may be absent: JavaScript's `null`/`undefined` results. */
  datatype Option<+T> = None | Some(value: T)

  /** A value or the error that a JavaScript function would have thrown instead. */
  datatype Result<+T, +E> = Success(value: T) | Failure(error: E)
}
