/** The optional-value type shared by the modules of this model. */
module Wrappers {

  /** An optional value: a caller buffer that may be null, or a receive
      that may fail. */
  datatype Option<+T> = None | Some(value: T)
}
