/** The optional value used wherever PHP code reads a key that may be absent or NULL. */
module Wrappers {
  datatype Option<+T> = None | Some(value: T)
}
