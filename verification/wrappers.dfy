/** Optional values and error-carrying results, standing in for TypeScript's
    `undefined`/`null` and for thrown errors. */
module Wrappers {

  /** A value that may be missing (`undefined` or `null` in the source). */
  datatype Option<+T> = None | Some(value: T) {

    /** The value if present, otherwise `default`: the `??` operator. */
    function GetOr(default: T): T
    {
      match this
      case Some(v) => v
      case None => default
    }
  }

  /** The outcome of an operation that either returns a value or throws. */
  datatype Result<+T, +E> = Success(value: T) | Failure(error: E)
}
