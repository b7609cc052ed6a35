/** Optional values: Python's `None` and the "raised an exception" outcome of a step. */
module Wrappers {
  datatype Option<+T> = None | Some(value: T)
}
