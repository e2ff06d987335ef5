/** Option: a value that may be missing, used for Go's `(value, error)` pairs and nil slices. */
module Wrappers {

  datatype Option<+T> = None | Some(value: T) {

    function GetOr(default: T): T
    {
      match this
      case Some(v) => v
      case None => default
    }
  }
}
