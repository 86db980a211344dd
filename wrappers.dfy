/** Option and Result, the two failure-carrying types the library's signatures use. */
module Wrappers {

  /** An optional value: an environment variable that may be unset. */
  datatype Option<+T> = None | Some(value: T)

  /** A value or an error, as Rust's `Result<T, E>`. */
  datatype Result<+R, +E> = Success(value: R) | Failure(error: E)
}
