/** Failure-carrying datatypes shared by the rest of the model. */
module Wrappers {

  /** A value that may be absent; stands for Go's `(T, error)` pairs whose error value is not inspected beyond its presence. */
  datatype Option<+T> = None | Some(value: T)

  /** A value or an error; stands for Go's `(T, error)` pairs whose error is inspected. */
  datatype Result<+R, +E> = Success(value: R) | Failure(error: E)
}
