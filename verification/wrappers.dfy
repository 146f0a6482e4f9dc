/** Optional values and results shared by every module of the model. */
module Wrappers {

  /** A value that may be absent: JavaScript's `undefined`/`null` field. */
  datatype Option<+T> = None | Some(value: T)

  /** The outcome of an operation that either yields a value or rejects with an error. */
  datatype Result<+T, +E> = Success(value: T) | Failure(error: E)

  /** A check that either passes or rejects with an error. */
  datatype Outcome<+E> = Pass | Fail(error: E)
}
