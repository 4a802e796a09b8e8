/** Optional values and results with an error, as the model's other modules use them. */
module Wrappers {

  datatype Option<+T> = None | Some(value: T)

  /** The outcome of an operation that can throw: the value, or the message of the error. */
  datatype Result<+R, +E> = Success(value: R) | Failure(error: E)
}
