/** A value that may be missing: pandas' NaN in a column of objects. */
module Wrappers {
  datatype Option<+T> = None | Some(value: T)
}
