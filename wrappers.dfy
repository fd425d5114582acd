/** The optional value used for dictionary keys that may be missing. */
module Wrappers {

  datatype Option<+T> = None | Some(value: T)

}
