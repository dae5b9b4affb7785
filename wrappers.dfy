/** Optional values, used for absent request fields and for lookups that find nothing. */
module Wrappers {
  datatype Option<+T> = None | Some(value: T)
}
