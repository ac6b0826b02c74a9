/** The optional value used for an absent parent matrix or an absent drawing payload. */
module Wrappers {
  datatype Option<T> = None | Some(value: T)
}
