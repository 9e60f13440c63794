/**
  A value that may be missing: a `null` result, or a `NaN` from `parseInt`.
 */
module Wrappers {
  datatype Option<T> = None | Some(value: T)
}
