/** Optional values: a Python attribute or query argument that may be None. */
module Wrappers {
  datatype Option<+T> = None | Some(value: T)
}
