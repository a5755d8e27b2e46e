/** Option, for lookups and selectors that may have nothing to return. */
module Wrappers {
  datatype Option<+T> = None | Some(value: T)
}
