/** Small shared datatypes. */
module Base {

  /** A value that may be absent: a dictionary key that is not there, a
      Python `None`. */
  datatype Option<T> = None | Some(value: T) {
    function GetOr(default: T): T {
      match this
      case Some(v) => v
      case None => default
    }
  }
}
