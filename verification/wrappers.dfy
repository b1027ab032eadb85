/** The optional-value type used where the source uses a nullable reference. */
module Wrappers {

  /** `None` stands for a Java `null`; `Some(v)` for a present value. */
  datatype Option<+T> = None | Some(value: T)
}
