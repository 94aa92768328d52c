/** Optional values: Python's `None` next to a present value. */
module Options {

  datatype Option<+T> = None | Some(value: T) {

    /** The present value, falling back to `default` when there is none. */
    function GetOr(default: T): T {
      match this
      case Some(v) => v
      case None => default
    }
  }
}
