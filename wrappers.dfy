/** Python's `None`-or-value, as used by every optional field of the model. */
module Wrappers {

  datatype Option<+T> = None | Some(value: T)
}
