/** Optional values: an absent VTK handle, or a Python exception turned into "no value". */
module Wrappers {

  datatype Option<+T> = None | Some(value: T)
}
