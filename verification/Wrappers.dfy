/** Result and Option values standing for Go's (value, error) pairs and nil-able pointers. */
module Wrappers {
  datatype Option<+T> = None | Some(value: T)

  datatype Result<+T, +E> = Success(value: T) | Failure(error: E)
}
