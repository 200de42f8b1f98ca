/** The value or its absence, for optional fields and results. */
module Wrappers {
  datatype Option<+T> = None | Some(value: T)
}
