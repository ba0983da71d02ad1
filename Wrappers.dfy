/** Optional values, used for records and files that may be absent. */
module Wrappers {
  datatype Option<+T> = None | Some(value: T)
}
