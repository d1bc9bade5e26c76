/** Optional values and results shared by the modules of the model. */
module Wrappers {
  datatype Option<T> = None | Some(value: T)

  /** The outcome of an operation that may raise one of the source's exceptions. */
  datatype Result<T, E> = Success(value: T) | Failure(error: E)
  {
    predicate IsFailure() { Failure? }
  }
}
