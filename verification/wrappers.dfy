/** Optional values: the model's stand-in for JavaScript's null/undefined and Python's None. */
module Wrappers {

  datatype Option<+T> = None | Some(value: T) {

    /** The wrapped value, or `default` when there is none. */
    function GetOr(default: T): T {
      match this
      case Some(v) => v
      case None => default
    }
  }

  /** `xs || []`: a missing list reads as the empty list. */
  function OrEmpty<T>(xs: Option<seq<T>>): seq<T> {
    xs.GetOr([])
  }
}
