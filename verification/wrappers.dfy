/** Option and Result, used for Python's None and for exceptions raised by
    the collaborators the core calls. */
module Wrappers {

  datatype Option<+T> = None | Some(value: T)

  datatype Result<+R, +E> = Success(value: R) | Failure(error: E)
}
