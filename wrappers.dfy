/** The optional-value datatype used throughout the model: `None` stands for
    JavaScript's `null`/`undefined` (a missing configuration field, a failed
    parse, a `NaN` out of `parseInt`). */
module Wrappers {

  datatype Option<+T> = None | Some(value: T) {

    /** The wrapped value, or `default` when there is none (JavaScript's `??`). */
    function GetOr(default: T): T {
      match this
      case Some(v) => v
      case None => default
    }
  }
}
