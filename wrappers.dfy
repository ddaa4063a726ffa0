/** Optional values, standing in for attributes and timers that may be absent. */
module Wrappers {
  datatype Option<+T> = None | Some(value: T)
}
