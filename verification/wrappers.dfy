/** The optional-value datatype used for registry lookups and newline searches. */
module Wrappers {

  datatype Option<+T> = None | Some(value: T)
}
