/** The optional value used for Go's nil results and for the "no such element" answers of the parsers. */
module Wrappers {

  datatype Option<+T> = None | Some(value: T)
}
