/** The optional value used wherever the program passes `None`. */
module Wrappers {
  datatype Option<+T> = None | Some(value: T)
}
