/** The optional value used for browser storage entries and for parsers that can fail. */
module Wrappers {

  datatype Option<+T> = None | Some(value: T)
}
