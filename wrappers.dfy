/** The optional value a Java stream terminal such as `max` or `findFirst` produces. */
module Wrappers {

  datatype Option<+T> = None | Some(value: T) {

    /** `orElse`: the wrapped value, or `default` when there is none. */
    function GetOr(default: T): T {
      match this
      case Some(v) => v
      case None => default
    }
  }
}
