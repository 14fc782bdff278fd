/** Option and Result, the two failure-carrying types every module of the model uses. */
module Wrappers {

  /** A value that may be absent: PHP's `null` next to a value of type T. */
  datatype Option<+T> = None | Some(value: T)
  {
    /** The wrapped value, or `default` when there is none. */
    function GetOr(default: T): T
    {
      match this
      case Some(v) => v
      case None => default
    }
  }

  /** The outcome of an operation that either yields a value or throws. */
  datatype Result<+T, +E> = Ok(value: T) | Err(error: E)
}
