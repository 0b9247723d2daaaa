/** JavaScript's `undefined` / `null` and "not found" results, as a value. */
module Options {
  datatype Option<+T> = None | Some(value: T) {
    /** The value, or `default` if there is none (the `x || default` idiom). */
    function GetOr(default: T): T {
      match this
      case Some(v) => v
      case None => default
    }
  }
}
