/** Failure-compatible wrappers used across the model: an optional value and a result
    that carries either a value or an error. */
module Wrappers {

  /** Python's `Optional[T]`: `None` or a present value. */
  datatype Option<+T> = None | Some(value: T)

  /** The outcome of an operation that may raise: `Success` holds the value, `Failure` the error. */
  datatype Result<+R, +E> = Success(value: R) | Failure(error: E)
}
