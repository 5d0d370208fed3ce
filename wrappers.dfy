/** Option and Result, for the page's "undefined" state values and for its thrown errors. */
module Wrappers {

  /** A value that may be absent: JavaScript's `undefined` or a `null` list. */
  datatype Option<+T> = None | Some(value: T)

  /** The outcome of an operation that either succeeds or throws an error with a message. */
  datatype Result<+R, +E> = Success(value: R) | Failure(error: E)
}
