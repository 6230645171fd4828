/** The optional value used for nullable fields and for lookups that may fail. */
module Wrappers {

  datatype Option<+T> = None | Some(value: T)
}
