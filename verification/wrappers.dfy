/** Failure-carrying datatypes used throughout the model. */
module Wrappers {

  /** An optional value: the absent target, the action that did not veto. */
  datatype Option<+T> = None | Some(value: T)

  /** The outcome of an operation that either yields a value or fails with an error. */
  datatype Result<+T, +E> = Ok(value: T) | Fail(error: E)
}
