/** The optional result of a lookup by name. */
module Wrappers {

  /** `None` stands for the host's empty `std::optional`, `Some(v)` for a present value. */
  datatype Option<+T> = None | Some(value: T)
}
