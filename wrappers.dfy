/** Optional values: a decoded field that may be missing, a command that may not be emitted. */
module Wrappers {
  datatype Option<+T> = None | Some(value: T)
}
