/** Option and Result, for lookups that may find nothing and for the
    exceptions the remesher's Python code can raise. */
module Wrappers {

  datatype Option<+T> = None | Some(value: T)

  datatype Result<+T, +E> = Success(value: T) | Failure(error: E)
}
