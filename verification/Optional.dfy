/** The optional value used where the system passes `None` or a value that a
    library call may fail to produce. */
module Optional {

  datatype Option<T> = None | Some(value: T) {

    /** Python's `x or default` for a value that is either missing or present. */
    function OrElse(default: T): T {
      match this
      case Some(v) => v
      case None => default
    }
  }
}
