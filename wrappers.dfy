/** A value that may be SQL NULL / JSON undefined. */
module Wrappers {

  datatype Option<+T> = None | Some(value: T)
}
