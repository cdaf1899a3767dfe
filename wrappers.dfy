/** The optional value used for Python operations that may raise or find nothing. */
module Wrappers {
  datatype Option<+T> = None | Some(value: T)
}
