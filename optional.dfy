/** A value that may be missing: JavaScript's `undefined`/`null` next to a present value. */
module Optional {

  datatype Option<+T> = None | Some(value: T) {

    /** The present value, or `default` when it is missing (JavaScript's `??`). */
    function GetOr(default: T): T {
      match this
      case Some(v) => v
      case None => default
    }
  }
}
