/** Optional values and results with an error, as used throughout the model. */
module Wrappers {

  /** A value that may be missing (Python's `None`). */
  datatype Option<+T> = None | Some(value: T)

  /** The outcome of an operation that may raise: a value, or the error it raised. */
  datatype Result<+T, +E> = Ok(value: T) | Err(error: E)
}
