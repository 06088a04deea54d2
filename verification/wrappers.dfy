/** Optional values: a request field that may be absent, a record that may not be found. */
module Wrappers {

  datatype Option<+T> = None | Some(value: T)
}
