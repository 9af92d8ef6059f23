/** Optional results. `None` stands for "no value": a missing entry, or a C++ call that
    throws or has undefined behaviour on that input. */
module Wrappers {
  datatype Option<T> = None | Some(value: T)
}
