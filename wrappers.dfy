/**
 * The optional value shared by every module of the model (Python's `None`),
 * and the outcome of an operation that can raise (the exception's name).
 */
module Wrappers {
  datatype Option<T> = None | Some(value: T)

  datatype Result<T> = Success(value: T) | Failure(error: string)
}
