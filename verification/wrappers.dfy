/** Failure-carrying datatypes used across the model. */
module Wrappers {

  /** An optional value: Python's "None or a value", and the result of a
      partial parse. */
  datatype Option<+T> = None | Some(value: T) {

    function GetOr(default: T): (r: T)
      ensures Some? ==> r == value
      ensures None? ==> r == default
    {
      match this
      case Some(v) => v
      case None => default
    }
  }

  /** A computation that either produces a value or stops with an error, the
      way a Python script either finishes or raises. */
  datatype Result<+R, +E> = Ok(value: R) | Err(error: E)
}
