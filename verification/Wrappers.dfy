/** Optional values, used wherever the program has a null pointer or an absent result. */
module Wrappers {
  datatype Option<+T> = None | Some(value: T)
}
