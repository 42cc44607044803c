/** Option and Result types used for PHP's "absent" values and thrown exceptions. */
module Wrappers {

  datatype Option<+T> = None | Some(value: T)

  /** A computation that either produced a value or threw. */
  datatype Result<+R, +E> = Success(value: R) | Failure(error: E)

  /** A computation without a value that either completed or threw. */
  datatype Outcome<+E> = Pass | Fail(error: E)
}
