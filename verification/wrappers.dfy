/** The optional-value datatype that stands in for JavaScript's `null`. */
module Wrappers {

  /** `None` is the source's `null`; `Some(v)` is a present value. */
  datatype Option<+T> = None | Some(value: T)
}
