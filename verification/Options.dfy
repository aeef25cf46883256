/** The optional values shared by the models below. */
module Options {

  /** A value that the source may leave unset (Python's None, SQL's NULL). */
  datatype Option<+T> = None | Some(value: T)
  {
    function GetOr(default: T): T {
      match this
      case Some(v) => v
      case None => default
    }
  }
}
