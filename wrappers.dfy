/** Option and Result: the absent value (std::string::npos, a NULL pointer) and the thrown exception. */
module Wrappers {

  datatype Option<+T> = None | Some(value: T)

  datatype Result<+T, +E> = Success(value: T) | Failure(error: E)
}
