/** A value that may be missing: the model's reading of a .NET string that may be null. */
module Wrappers {

  datatype Option<+T> = None | Some(value: T)
}
