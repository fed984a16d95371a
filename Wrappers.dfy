/** The optional value used for "first index that matches" and for artifacts
    that may not have been loaded. */
module Wrappers {

  datatype Option<+T> = None | Some(value: T)

}
