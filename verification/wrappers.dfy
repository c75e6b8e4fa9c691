/** Failure-carrying values shared by the cipher modules. */
module Wrappers {

  /** A value that may be absent: JavaScript's `null` / `NaN` results. */
  datatype Option<+T> = None | Some(value: T)

  /** A value or an error: a JavaScript function that either returns or throws. */
  datatype Result<+T, +E> = Success(value: T) | Failure(error: E)
}
