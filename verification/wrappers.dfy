/** Optional values: a command-line option that was not passed is `None`. */
module Wrappers {

  datatype Option<+T> = None | Some(value: T)
}
