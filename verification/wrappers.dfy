/** A minimal failure-carrying result, used where the modelled code panics on a
    condition it checks itself. */
module Wrappers {

  datatype Result<+T, +E> = Success(value: T) | Failure(error: E)
}
