/** Optional values, used for nullable references of the source. */
module Wrappers {

  datatype Option<+T> = None | Some(value: T)
}
