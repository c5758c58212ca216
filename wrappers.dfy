/** Optional values: `None` stands for Java's `null` or for a fatal failure. */
module Wrappers {
  datatype Option<+T> = None | Some(value: T)
}
