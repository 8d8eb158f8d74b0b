/** The Option and Result datatypes used across the model. */
module Wrappers {

  /** A value or its absence; `None` also stands for Ruby's `nil`. */
  datatype Option<+T> = None | Some(value: T)

  /** A successful value or a raised error. */
  datatype Result<+T, +E> = Success(value: T) | Failure(error: E)
}
