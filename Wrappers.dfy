/** The optional-value datatype used for the processor's nullable configuration entries. */
module Wrappers {

  /** `None` stands for a Java `null`; `Some(v)` for a present value. */
  datatype Option<+T> = None | Some(value: T)
}
