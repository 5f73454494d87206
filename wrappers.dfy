/** The optional value used for the sources' NULL and "not found" returns. */
module Wrappers {
  datatype Option<T> = None | Some(value: T)
}
