/** Option and Result, the failure-carrying datatypes the model uses in place
    of the Rust `Option` and `Result` types. */
module Wrappers {

  datatype Option<+T> = None | Some(value: T)

  datatype Result<+R, +E> = Success(value: R) | Failure(error: E)
}
