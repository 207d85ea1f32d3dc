/** The optional value used where the adapter returns `null` or a store read finds no entry. */
module Wrappers {
  datatype Option<+T> = None | Some(value: T)
}
