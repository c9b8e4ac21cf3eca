/** Failure-compatible wrappers shared by every module of the model. */
module Wrappers {

  /** An optional value: a request field that may be absent, a lookup that may miss. */
  datatype Option<+T> = None | Some(value: T)

  /** A read-only operation either yields a value or throws an error of kind E. */
  datatype Result<+T, +E> = Ok(value: T) | Err(error: E)
}
