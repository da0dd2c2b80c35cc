/** Option and Result values: Java's Optional / OptionalDouble, and a call that
    either returns normally or throws. */
module Wrappers {

  /** An optional value, as `java.util.Optional` holds one. */
  datatype Option<+T> = None | Some(value: T)

  /** The outcome of a call that either returns a value or throws an exception. */
  datatype Result<+T, +E> = Success(value: T) | Failure(error: E)
}
