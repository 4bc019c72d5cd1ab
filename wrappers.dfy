/** Option and Result values used for Python's None and for exceptions that escape a function. */
module Wrappers {

  datatype Option<+T> = None | Some(value: T)

  /** Success carries a returned value; Failure carries the message of an exception that propagates. */
  datatype Result<+R, +E> = Success(value: R) | Failure(error: E)
}
