/** Option, Result and Outcome: the absent value, a value or an error, and success or an error. */
module Wrappers {

  datatype Option<+T> = None | Some(value: T)

  datatype Result<+R, +E> = Success(value: R) | Failure(error: E)

  /** The outcome of an operation that produces no value: it either completes or raises `error`. */
  datatype Outcome<+E> = Pass | Fail(error: E)
}
