/** The Some/None datatype used where the firmware has a possibly-null pointer
    or a parse step that may fail. */
module Wrappers {

  datatype Option<+T> = None | Some(value: T)
}
