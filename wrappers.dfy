/** Optional values, standing for Python's `None` and the result of a call that may fail. */
module Wrappers {
  datatype Option<+T> = None | Some(value: T)
}
