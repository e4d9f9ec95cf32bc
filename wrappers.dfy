/** The optional result that the checked accessors hand back. */
module Wrappers {

  /** `Some(value)` when a lookup finds a cell, `None` when it does not. */
  datatype Option<+T> = None | Some(value: T)
}
