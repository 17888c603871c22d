/** Optional values: Python's `None` versus a present value. */
module Wrappers {

  /** `None` stands for Python's `None` (a failed lookup, an unset variable);
      `Some(v)` for a present value `v`. */
  datatype Option<+T> = None | Some(value: T)
}
