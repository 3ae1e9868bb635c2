/** Optional values: the model's stand-in for JavaScript's `undefined` fields. */
module Wrappers {

  datatype Option<+T> = None | Some(value: T) {

    /** An optional field read with a fallback: the field when it is set,
        `default` when it is absent. */
    function GetOr(default: T): T {
      match this
      case Some(v) => v
      case None => default
    }
  }
}
