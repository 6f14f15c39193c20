/** The optional-value and result datatypes the other modules share. */
module Wrappers {

  datatype Option<+T> = None | Some(value: T) {

    function GetOr(default: T): T {
      match this
      case Some(v) => v
      case None => default
    }
  }

  /** A value or an error message, as a Go `(value, error)` pair. */
  datatype Result<+T> = Ok(value: T) | Err(error: string)
}
