/** Optional values, for lookups that can fail and for fields that may be absent. */
module Wrappers {

  datatype Option<+T> = None | Some(value: T)
}
