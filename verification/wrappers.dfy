/** Failure-carrying values shared by every module of the model. */
module Wrappers {

  /** A value that may be absent, as a C++ null pointer or a JavaScript `undefined`. */
  datatype Option<+T> = None | Some(value: T)

  /** Either the value an operation produced or the error it reported. */
  datatype Result<+T, +E> = Ok(value: T) | Err(error: E)
}
