/** Optional values: a step that may fail without aborting its caller. */
module Wrappers {
  datatype Option<+T> = None | Some(value: T)
}
