/** Option and Result, the failure-carrying values that the handlers return. */
module Wrappers {

  datatype Option<+T> = None | Some(value: T)

  /** A handler either answers with a value or fails with an error. */
  datatype Result<+R, +E> = Success(value: R) | Failure(error: E)
}
