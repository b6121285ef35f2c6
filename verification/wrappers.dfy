/** Optional values: a field that may be unset, a request value that may be absent. */
module Wrappers {

  datatype Option<+T> = None | Some(value: T)
}
