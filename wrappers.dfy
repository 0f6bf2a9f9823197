/** The nullable values of the backend (null pointers, failed creations). */
module Wrappers {
  datatype Option<+T> = None | Some(value: T)
}
