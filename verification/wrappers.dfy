/** A value that may be missing: pandas' NaN in an object column, or no result from a call that raises. */
module Wrappers {

  datatype Option<+T> = None | Some(value: T)
}
