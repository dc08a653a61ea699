/** The optional value used where the font loader may fail. */
module Wrappers {

  datatype Option<+T> = None | Some(value: T)
}
