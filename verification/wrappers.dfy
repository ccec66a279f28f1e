/** Wrappers: a Java reference that may be null becomes an `Option`, and an
    operation that may throw becomes a `Result`. */
module Wrappers {

  datatype Option<+T> = None | Some(value: T)

  datatype Result<+R, +E> = Success(value: R) | Failure(error: E)
}
