/** Failure-carrying values shared by the entities, the gateways and the handlers. */
module Wrappers {

  /** A value that may be absent: a lookup with no match, a parse that failed. */
  datatype Option<+T> = None | Some(value: T)

  /** The Go idiom `(value, error)`: exactly one of the two is meaningful. */
  datatype Result<+T, +E> = Success(value: T) | Failure(error: E)
}
