/** A value that may be missing: a null cell of the family table. */
module Wrappers {
  datatype Option<+T> = None | Some(value: T)
}
