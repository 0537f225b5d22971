/** A value that may be absent: a null pointer, or a function's "not found". */
module Wrappers {
  datatype Option<T> = None | Some(value: T)
}
