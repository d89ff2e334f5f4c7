/** Values that may be missing: an absent JSON key, a cookie the browser did not send. */
module Wrappers {

  datatype Option<T> = None | Some(value: T)

  /** Python's `d.get(key, fallback)`: the value when there is one, else `fallback`. */
  function ValueOr<T>(o: Option<T>, fallback: T): T {
    if o.Some? then o.value else fallback
  }
}
