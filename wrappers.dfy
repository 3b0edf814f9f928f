/** Small helper types shared by the decoder and the harness. */
module Wrappers {

  /** An optional value: the Java model's `null` is `None`. */
  datatype Option<+T> = None | Some(value: T) {

    /** The value, or `default` when there is none. */
    function GetOr(default: T): T {
      match this
      case Some(v) => v
      case None => default
    }
  }
}
