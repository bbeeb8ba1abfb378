/** Optional values, used wherever the C code returns a pointer that may be NULL
    or an index that may be absent. */
module Wrappers {

  datatype Option<+T> = None | Some(value: T)
}
