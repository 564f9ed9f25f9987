/** The value that may be missing: Python's `T | None`. */
module Wrappers {
  datatype Option<+T> = None | Some(value: T)
}
