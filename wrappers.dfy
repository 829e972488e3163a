/** The optional value used where pandas would produce a missing (NaN) cell. */
module Wrappers {

  datatype Option<+T> = None | Some(value: T)
}
