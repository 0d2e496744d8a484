/** Option and Result, shared by the model: `Option` for the
    optional fields of the source's records and for `find`, `Result` for
    the handlers that report a failure to the user. */
module Wrappers {

  datatype Option<+T> = None | Some(value: T)

  datatype Result<+R, +E> = Success(value: R) | Failure(error: E)
}
