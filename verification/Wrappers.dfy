/** Optional values, for the source's missing results and exceptions. */
module Wrappers {
  datatype Option<+T> = None | Some(value: T)
}
