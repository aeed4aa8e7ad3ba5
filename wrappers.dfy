/** Optional values and the JavaScript truthiness test that the request
    handlers apply to request fields. */
module Wrappers {

  /** A value that may be absent (`undefined` in the source). */
  datatype Option<+T> = None | Some(value: T)

  /** `!!x` for a field that is either absent or a string: only a present,
      non-empty string is truthy. */
  predicate Truthy(x: Option<string>)
  {
    x.Some? && x.value != ""
  }
}
