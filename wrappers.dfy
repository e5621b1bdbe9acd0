/** Option and Result: the Go idioms `(value, ok)` and `(value, error)` as values. */
module Wrappers {

  datatype Option<+T> = None | Some(value: T)

  datatype Result<+R, +E> = Success(value: R) | Failure(error: E)
}
