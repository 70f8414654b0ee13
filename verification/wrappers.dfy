/** The optional-value datatype used throughout the model. */
module Wrappers {

  /** A value that may be absent, in place of PHP's null return or missing argument. */
  datatype Option<+T> = None | Some(value: T)
}
