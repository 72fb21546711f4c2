/** Optional values: the absent query parameter and the absent record. */
module Wrappers {

  datatype Option<+T> = None | Some(value: T)
}
