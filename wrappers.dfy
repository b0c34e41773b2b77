/** Optional values, used for Python's `None` results and arguments. */
module Wrappers {

  datatype Option<+T> = None | Some(value: T)

}
