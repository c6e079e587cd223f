/** Failure-compatible datatypes used across the model: an absent value and
    a computation that may fail with an error. */
module Wrappers {

  /** A value that may be missing (the `null` a lookup can return). */
  datatype Option<+T> = None | Some(value: T)

  /** The outcome of a computation that may throw. */
  datatype Result<+R, +E> = Success(value: R) | Failure(error: E)
}
