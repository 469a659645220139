/** The optional value used for look-ups that may find nothing. */
module Wrappers {
  datatype Option<+T> = None | Some(value: T)
}
