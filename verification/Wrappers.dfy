module Wrappers {

  /** A nullable value: `None` stands for a nil pointer. */
  datatype Option<+T> = None | Some(value: T)

  /** A result or the error that took its place. */
  datatype Result<+T, +E> = Success(value: T) | Failure(error: E)
}
