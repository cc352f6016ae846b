/** Optional values: `None` stands for a value that is absent or not a finite number. */
module Wrappers {
  datatype Option<+T> = None | Some(value: T)
}
