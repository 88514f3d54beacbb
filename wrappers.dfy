/** The optional value used for "found / not found" outcomes. */
module Wrappers {

  datatype Option<+T> = None | Some(value: T)
}
