/** Option and Result, used for PHP's nullable returns and for thrown exceptions. */
module Wrappers {

  datatype Option<+T> = None | Some(value: T)

  /** A call either returns a value or throws. */
  datatype Result<+R, +E> = Success(value: R) | Failure(error: E)
}
