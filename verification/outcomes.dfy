/** Optional values and the outcome of one controller event. */
module Outcomes {

  /** A value that may be absent: `null`/`undefined` in the scripts. */
  datatype Option<+T> = None | Some(value: T) {

    /** The value, or `default` when absent (the scripts' `x || default` on objects). */
    function GetOr(default: T): T {
      match this
      case Some(v) => v
      case None => default
    }
  }

  /** The result of feeding one event to a controller. `NonFinite` marks the
      events after which the script's own arithmetic leaves the finite reals
      (a NaN coordinate, an infinite or zero aspect ratio); the model does not
      follow the state past that point. */
  datatype Outcome<+S> = Next(state: S) | NonFinite
}
