/** The optional value used where Python returns None or raises. */
module Wrappers {
  datatype Option<T> = None | Some(value: T)
}
