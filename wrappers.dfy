/** The optional value returned by a decode that may fail. */
module Wrappers {

  datatype Option<+T> = None | Some(value: T)
}
