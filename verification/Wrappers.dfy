/** The two result shapes shared by every component of the model. */
module Wrappers {

  datatype Option<+T> = None | Some(value: T)

  /** `Failure` stands for an exception the source raises. */
  datatype Result<+T, +E> = Success(value: T) | Failure(error: E)
}
