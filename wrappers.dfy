/** Failure-carrying values shared by the modules of this model. */
module Wrappers {

  /** A value or its absence; `None` stands for a `null` or a Python `None`. */
  datatype Option<+T> = None | Some(value: T)

  /** A value or an error; `Failure` stands for an exception the source raises. */
  datatype Result<+T, +E> = Success(value: T) | Failure(error: E)
}
