/** Optional values and error-carrying results shared by every module. */
module Wrappers {

  /** A value that may be absent: a JavaScript `undefined` or `null`. */
  datatype Option<+T> = None | Some(value: T)

  /** Either a computed value or the error that was thrown instead. */
  datatype Result<+R, +E> = Success(value: R) | Failure(error: E)
}
