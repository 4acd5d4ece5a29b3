/** Optional values: the model of JavaScript's `null`/`undefined` results. */
module Wrappers {

  /** `None` stands for `null` (or `undefined`), `Some(v)` for a present value. */
  datatype Option<+T> = None | Some(value: T)
}
