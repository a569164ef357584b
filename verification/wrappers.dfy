/** The optional-value and outcome types used by every component of the model. */
module Wrappers {

  /** A value that may be absent: Python's `None` or a value. */
  datatype Option<+T> = None | Some(value: T)

  /** The outcome of a step that either produces a value or stops the run with an error. */
  datatype Result<+R, +E> = Success(value: R) | Failure(error: E)
}
