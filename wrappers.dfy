/** Optional values, used for results that may be absent or failed. */
module Wrappers {

  datatype Option<+T> = None | Some(value: T)
}
