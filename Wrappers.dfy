/** Option and Result, used for Python's `None`-or-value parameters and for
    handlers that either answer or raise an HTTP error. */
module Wrappers {

  datatype Option<+T> = None | Some(value: T)

  datatype Result<+R, +E> = Success(value: R) | Failure(error: E)
}
