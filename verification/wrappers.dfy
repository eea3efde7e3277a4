/** Failure-carrying values used in place of Java's nulls and thrown exceptions. */
module Wrappers {

  /** An optional value: a nullable field or an empty `Optional`. */
  datatype Option<+T> = None | Some(value: T) {

    /** The value if present, otherwise `default`. */
    function GetOr(default: T): T {
      match this
      case Some(v) => v
      case None => default
    }
  }

  /** Either the value an operation returns or the error it raises. */
  datatype Result<+T, +E> = Ok(value: T) | Err(error: E)
}
