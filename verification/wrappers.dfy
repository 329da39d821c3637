/** Optional values, standing in for Python's `None`. */
module Wrappers {

  /** Either no value (Python `None`) or some value. */
  datatype Option<+T> = None | Some(value: T)
}
