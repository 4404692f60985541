/** The stock option type, for a source value that may be null, undefined or an error. */
module Wrappers {
  datatype Option<+T> = None | Some(value: T)
}
