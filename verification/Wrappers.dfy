/** A value that may be missing: NULL or None in the sources. */
module Wrappers {
  datatype Option<T> = None | Some(value: T)
}
