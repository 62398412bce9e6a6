/** The Option and Result datatypes used across the model. */
module Wrappers {

  /** A value that may be absent: JavaScript's `null`/`undefined`, or a non-finite number. */
  datatype Option<+T> = None | Some(value: T)

  /** The outcome of a store statement that may fail with a constraint violation. */
  datatype Result<+R, +E> = Success(value: R) | Failure(error: E)
}
