/** Optional values: `None` stands for the `null` that a failed lookup returns. */
module Wrappers {
  datatype Option<+T> = None | Some(value: T)
}
