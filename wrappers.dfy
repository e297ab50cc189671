/** Optional values: the model's stand-in for a Java reference that may be null. */
module Wrappers {

  /** `None` plays the part of Java's `null`; `Some(v)` is a non-null reference to `v`. */
  datatype Option<+T> = None | Some(value: T)
}
