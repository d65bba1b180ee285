/** Optional values, used for SQL lookups that may find no row and for
    Python calls that may raise. */
module Wrappers {

  datatype Option<+T> = None | Some(value: T)
}
