/** Failure-compatible wrappers shared by the token engine and the hasher. */
module Wrappers {

  datatype Option<+T> = None | Some(value: T)

  /** A value, or the exception a JavaScript call would have thrown instead. */
  datatype Result<+R, +E> = Success(value: R) | Failure(error: E)

  /** A check that either passes or raises an error. */
  datatype Outcome<+E> = Pass | Fail(error: E)
}
