/** The one helper type every module shares. */
module Prelude {
  datatype Option<+T> = None | Some(value: T) {
    /** The value, or `default` when there is none. */
    function GetOr(default: T): T {
      match this
      case None => default
      case Some(v) => v
    }
  }
}
