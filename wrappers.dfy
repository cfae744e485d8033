/** Option and Result, used wherever the Python code returns None or raises. */
module Wrappers {

  datatype Option<+T> = None | Some(value: T)
  {
    function GetOr(default: T): T
    {
      match this
      case None => default
      case Some(v) => v
    }
  }

  /** A call that either returns a value or raises the named exception. */
  datatype Result<+T, +E> = Ok(value: T) | Err(error: E)
}
