/** Optional values: PHP's `null`/`false`/unset, made explicit. */
module Wrappers {
  datatype Option<+T> = None | Some(value: T)
}
