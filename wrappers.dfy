/** Failure-carrying values used in place of the exceptions the handlers raise and catch. */
module Wrappers {

  /** A value that may be absent: the outcome of parsing a form field as a number. */
  datatype Option<+T> = None | Some(value: T)

  /** Either a computed value or the error that stopped the computation. */
  datatype Result<+T, +E> = Ok(value: T) | Err(error: E)
}
