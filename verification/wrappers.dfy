/** Optional values: a Go nil pointer or a missing map entry is `None`. */
module Wrappers {
  datatype Option<+T> = None | Some(value: T)
}
