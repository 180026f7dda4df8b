/** Optional values, for JavaScript fields that may be undefined or null. */
module Wrappers {
  datatype Option<T> = None | Some(value: T)
}
