/** A value that may be missing, as a null or an absent entry of the sources. */
module Wrappers {

  datatype Option<+T> = None | Some(value: T)
}
