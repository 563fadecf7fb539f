/** Option type for the outcome of one serial read. */
module Wrappers {

  /** `None` for a read that failed or timed out, `Some(b)` for a byte read. */
  datatype Option<+T> = None | Some(value: T)
}
