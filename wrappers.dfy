/** The optional value used where the source holds `null`. */
module Wrappers {
  datatype Option<+T> = None | Some(value: T)
}
