/** Optional values: the result of a `float.TryParse` and an arrow slot that may be empty. */
module Wrappers {

  datatype Option<+T> = None | Some(value: T)
}
