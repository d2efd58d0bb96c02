/** Optional values, used wherever the program reads a key that may be absent
    (`dict.get`, a Redis `GET` or `HGET` on a missing key, a `None` argument). */
module Wrappers {

  datatype Option<+T> = None | Some(value: T) {

    /** The value, or `default` when absent (Python's `d.get(k, default)`). */
    function GetOr(default: T): T {
      match this
      case Some(v) => v
      case None => default
    }
  }
}
