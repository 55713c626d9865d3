/** Optional values: `None` stands for the `null` / `undefined` of the scripts. */
module Wrappers {
  datatype Option<+T> = None | Some(value: T)
}
