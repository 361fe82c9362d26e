/** The Option and Result datatypes shared by the other modules. */
module Wrappers {

  /** An optional value: a JavaScript field that may be absent. */
  datatype Option<+T> = None | Some(value: T)

  /** The outcome of an operation that can throw. */
  datatype Result<+T, +E> = Success(value: T) | Failure(error: E)
}
