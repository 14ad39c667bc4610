/** A value that may be absent: a parse that failed, a key that is missing. */
module Wrappers {
  datatype Option<T> = None | Some(value: T)
}
