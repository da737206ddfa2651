// Option and Result, standing for Rust's and Kotlin's optional values, error
// returns and exceptions.
module Wrappers {
  datatype Option<+T> = None | Some(value: T)

  datatype Result<+T, +E> = Success(value: T) | Failure(error: E)
}
