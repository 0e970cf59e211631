/** Optional values: a CSV cell that the reader filled with `None`. */
module Wrappers {

  datatype Option<+T> = None | Some(value: T)
}
