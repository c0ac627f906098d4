/** Optional values: stands for a .NET reference that may be null, and for the
    result of a library call that may throw instead of returning. */
module Wrappers {

  datatype Option<+T> = None | Some(value: T)
}
