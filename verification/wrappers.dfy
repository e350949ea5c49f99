/** Failure-carrying values shared by the whole model. */
module Wrappers {

  /** An optional value: Python's `None`, Go's nil pointer. */
  datatype Option<+T> = None | Some(value: T)

  /** The outcome of a call that may fail (Go's `(value, error)` pair). */
  datatype Result<+R, +E> = Success(value: R) | Failure(error: E)
}
