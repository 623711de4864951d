/** Optional values, used where the Java code returns `Optional` or may find nothing. */
module Wrappers {
  datatype Option<T> = None | Some(value: T)
}
