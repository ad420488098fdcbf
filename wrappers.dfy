/** The optional-value datatype used for caller identities, request fields and lookups. */
module Wrappers {

  datatype Option<+T> = None | Some(value: T)
}
