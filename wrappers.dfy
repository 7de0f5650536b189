/** Optional values: `None` stands for JavaScript's `null`, `undefined` or `NaN`,
    depending on where it is used. */
module Wrappers {
  datatype Option<+T> = None | Some(value: T)
}
