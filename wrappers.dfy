/** Failure-carrying wrappers shared by the model's modules. */
module Wrappers {

  /** A value that may be absent: JavaScript's `undefined`/`null`, or NaN for a parse. */
  datatype Option<+T> = None | Some(value: T)

  /** The outcome of an operation that either returns a value or throws an error. */
  datatype Result<+R, +E> = Ok(value: R) | Err(error: E)
}
