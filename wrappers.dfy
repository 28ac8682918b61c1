/** Option and Result: the failure-compatible values used across the model. */
module Wrappers {

  /** Python's `None`-or-value. */
  datatype Option<+T> = None | Some(value: T)

  /** A value, or the exception a call raised instead of returning. */
  datatype Result<+R, +E> = Success(value: R) | Failure(error: E)
}
