/** Failure-carrying results used by the store and the user model. */
module Wrappers {

  datatype Option<+T> = None | Some(value: T)

  /** The value an operation produced, or the error that stopped it. */
  datatype Result<+T, +E> = Success(value: T) | Failure(error: E)

  /** Completion status of an operation that produces no value. */
  datatype Outcome<+E> = Pass | Fail(error: E)
}
