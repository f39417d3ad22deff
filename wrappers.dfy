/** Optional values and results shared by the whole model. */
module Wrappers {

  /** A value that may be absent: a SQL NULL, a missing JSON field, an undefined JavaScript value. */
  datatype Option<T> = None | Some(value: T) {
    function GetOr(default: T): T {
      if Some? then value else default
    }
  }

  /** The outcome of an operation that either returns a value or throws an error with a message. */
  datatype Result<T> = Success(value: T) | Failure(error: string)
}
