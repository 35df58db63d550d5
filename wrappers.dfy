/** Option and Result: the error returns of the Go code become values. */
module Wrappers {

  datatype Option<+T> = None | Some(value: T)

  /** `Success(v)` is a nil error with value `v`; `Failure(e)` is an error whose text is `e`. */
  datatype Result<+T, +E> = Success(value: T) | Failure(error: E)
}
