/** The optional value used where the source uses '' or undefined for "nothing". */
module Wrappers {
  datatype Option<+T> = None | Some(value: T)
}
