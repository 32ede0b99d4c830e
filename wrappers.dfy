/** Option, used for Python's `None` and for a score that is still `float("inf")`. */
module Wrappers {
  datatype Option<+T> = None | Some(value: T)
}
