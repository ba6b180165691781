/** Optional values, used for the results of the host's JSON codec. */
module Wrappers {
  datatype Option<+T> = None | Some(value: T)
}
