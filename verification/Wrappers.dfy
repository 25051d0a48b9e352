/** Shared result types. */
module Wrappers {
  /** An optional value. */
  datatype Option<+T> = None | Some(value: T)
}
