/** Optional values, standing for Python's `None` and for "not found". */
module Wrappers {
  datatype Option<+T> = None | Some(value: T)
}
