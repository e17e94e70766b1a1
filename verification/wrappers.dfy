/** The nullable values of the application: PHP's `?T` becomes `Option<T>`. */
module Wrappers {

  datatype Option<+T> = None | Some(value: T) {

    /** The value, or `default` for a null. */
    function GetOr(default: T): T {
      match this
      case Some(v) => v
      case None => default
    }
  }
}
