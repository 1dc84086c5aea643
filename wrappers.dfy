/** The optional value used for fields that Python allows to be `None`. */
module Wrappers {

  datatype Option<+T> = None | Some(value: T)
}
