/** Failure-carrying values used across the model: an optional value, and a
    result that is either a success value or an error describing why the
    operation gave up. */
module Wrappers {

  datatype Option<+T> = None | Some(value: T)

  datatype Result<+R, +E> = Success(value: R) | Failure(error: E)
}
