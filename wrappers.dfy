/** The Option datatype used for storage reads and credential lookups. */
module Wrappers {

  datatype Option<+T> = None | Some(value: T)
}
