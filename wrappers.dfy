/** The Option type used for operations that raise in the original program. */
module Wrappers {
  datatype Option<+T> = None | Some(value: T)
}
