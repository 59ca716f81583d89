/** Optional values, used for null pointers and for "no error raised". */
module Wrappers {

  datatype Option<+T> = None | Some(value: T)
}
