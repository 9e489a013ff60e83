/** Optional values, used where the source tests a value for `undefined` or `null`. */
module Wrappers {
  datatype Option<+T> = None | Some(value: T)
}
