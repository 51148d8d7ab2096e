/** Option and Result, the failure-carrying values the model returns where the
    source has an error path or undefined behaviour. */
module Wrappers {

  datatype Option<+T> = None | Some(value: T)

  datatype Result<+R, +E> = Success(value: R) | Failure(error: E)
}
