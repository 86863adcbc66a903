/** Optional values, for the source's possibly-absent fields (an error's `code`, the result of `find`). */
module Wrappers {

  datatype Option<+T> = None | Some(value: T)
}
