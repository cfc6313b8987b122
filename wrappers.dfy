/** The optional value used for decoded request bodies and for lookups. */
module Wrappers {

  datatype Option<+T> = None | Some(value: T)
}
