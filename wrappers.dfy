/** The error-carrying result used where a Go function returns `(value, error)`. */
module Wrappers {
  datatype Result<+T, +E> = Success(value: T) | Failure(error: E)
}
