/** Failure-carrying values: Go's `(T, error)` pairs become `Result`, a value that may be absent `Option`. */
module Wrappers {

  datatype Option<+T> = None | Some(value: T)

  datatype Result<+T, +E> = Success(value: T) | Failure(error: E)
}
