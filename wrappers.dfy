/** Absence and failure values used throughout the model. */
module Wrappers {

  /** Python's `None` versus a present value. */
  datatype Option<+T> = None | Some(value: T)

  /** A value, or the exception the Python code would raise instead. */
  datatype Result<+R, +E> = Success(value: R) | Failure(error: E)
}
