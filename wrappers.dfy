/** Optional values: a regex search that may find nothing, an environment
    variable that may be unset, a file that may not be written. */
module Wrappers {

  datatype Option<+T> = None | Some(value: T)
}
