/** A value that may be absent: a failed parse, a point outside the grid. */
module Wrappers {
  datatype Option<T> = None | Some(value: T)
}
