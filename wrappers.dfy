/** The optional value used for nullable document fields and for lookups that may find nothing. */
module Wrappers {
  datatype Option<T> = None | Some(value: T)
}
