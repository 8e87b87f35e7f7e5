/** Option and Result values used in place of missing keys and raised exceptions. */
module Wrappers {

  /** An optional value: a field a request may leave out. */
  datatype Option<+T> = None | Some(value: T)

  /** Either a value or the error that aborted the computation. */
  datatype Result<+R, +E> = Success(value: R) | Failure(error: E)
}
