/** Optional values: Python's `None` and a JavaScript `null` both become `None`. */
module Wrappers {

  datatype Option<+T> = None | Some(value: T)
}
