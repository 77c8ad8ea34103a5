/** Failure-carrying return values: Option stands for a JavaScript `null`
    result, Result for a value or a thrown error. */
module Wrappers {

  datatype Option<+T> = None | Some(value: T)

  datatype Result<+R, +E> = Success(value: R) | Failure(error: E)
}
