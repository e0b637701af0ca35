/** The absent or present value that Go expresses by a nil pointer or an `ok` result. */
module Wrappers {
  datatype Option<+T> = None | Some(value: T)
}
