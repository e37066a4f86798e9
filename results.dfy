/** Optional values and the success-or-failure outcome of a procedure. */
module Results {

  /** A value that may be absent: a field the caller left `undefined`. */
  datatype Option<+T> = None | Some(value: T) {
    function GetOr(default: T): T
    {
      match this
      case Some(v) => v
      case None => default
    }
  }

  /** The outcome of a procedure: its value, or the error it throws. */
  datatype Result<+T, +E> = Ok(value: T) | Err(error: E)
}
