/** A value that may be absent: a null pointer, a failed lookup, a run not yet fired. */
module Wrappers {
  datatype Option<+T> = None | Some(value: T)
}
