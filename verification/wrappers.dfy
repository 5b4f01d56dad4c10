/** The optional value used for "no match" results and for dates that do not parse. */
module Wrappers {

  datatype Option<+T> = None | Some(value: T)

}
