/** A value that may be missing: an unreadable file, a failed fetch. */
module Wrappers {
  datatype Option<T> = None | Some(value: T)
}
