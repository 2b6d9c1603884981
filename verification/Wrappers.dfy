/** Optional values, for the `None` the tools return. */
module Wrappers {
  datatype Option<+T> = None | Some(value: T)
}
