/** Optional values and results with an error, used by the provider and the handler. */
module Wrappers {

  /** An optional value: `None` stands for a missing dictionary key. */
  datatype Option<+T> = None | Some(value: T)

  /** The outcome of an operation that either completes or raises an error. */
  datatype Result<+R, +E> = Success(value: R) | Failure(error: E)
}
