/** Optional values: Python's `None` next to a present value. */
module Wrappers {

  datatype Option<+T> = None | Some(value: T)

  /** Python's `s or ""` for an optional string: None and "" both become "". */
  function OrEmpty(s: Option<string>): string
  {
    if s.Some? then s.value else ""
  }

  /** The value, or `default` when there is none. */
  function UnwrapOr<T>(o: Option<T>, default: T): T
  {
    if o.Some? then o.value else default
  }

  /** Python truthiness of an optional string: present and non-empty. */
  predicate IsTruthy(s: Option<string>)
  {
    s.Some? && s.value != ""
  }
}
