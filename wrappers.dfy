/** Option and Result, used for JSON fields that may be absent and for
    operations that resolve with a value or reject with a message. */
module Wrappers {

  datatype Option<+T> = None | Some(value: T)

  datatype Result<+T, +E> = Success(value: T) | Failure(error: E)
}
