/** Option and Result, the error-carrying values the model uses in place of
    Python's None and raised validation errors. */
module Wrappers {

  datatype Option<+T> = None | Some(value: T)

  datatype Result<+R, +E> = Success(value: R) | Failure(error: E)
}
