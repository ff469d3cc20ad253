/** Failure-compatible wrappers for the source's `None` results and thrown errors. */
module Wrappers {

  datatype Option<+T> = None | Some(value: T)

  /** A step that either passes or fails with an error (a thrown exception). */
  datatype Outcome<+E> = Pass | Fail(error: E)

  /** A value or an error (a returned value, or a thrown exception). */
  datatype Result<+R, +E> = Success(value: R) | Failure(error: E)
}
