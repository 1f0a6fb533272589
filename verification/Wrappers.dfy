/** Failure-carrying values: an absent pointer or missing key, and an operation that returns an error. */
module Wrappers {

  datatype Option<+T> = None | Some(value: T)

  datatype Result<+R, +E> = Ok(value: R) | Err(error: E)
}
