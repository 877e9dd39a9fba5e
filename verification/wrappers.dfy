/** Failure-carrying values used by the model in place of Swift optionals and
    thrown errors. */
module Wrappers {

  /** Swift's `T?`. */
  datatype Option<+T> = None | Some(value: T)

  /** A value, or the error a Swift `throws` function would have thrown. */
  datatype Result<+T, +E> = Ok(value: T) | Err(error: E)
}
