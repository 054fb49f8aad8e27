/** Failure-compatible wrappers used where the source returns `null`/`undefined`
    or throws. */
module Wrappers {

  /** A value that may be absent (`T | null` in the source). */
  datatype Option<+T> = None | Some(value: T)

  /** A value or an error message (a constructor that may throw). */
  datatype Result<+R, +E> = Success(value: R) | Failure(error: E)
}
