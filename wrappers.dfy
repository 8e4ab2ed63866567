/** The optional-value datatype used for absent fields and absent arguments. */
module Wrappers {
  datatype Option<+T> = None | Some(value: T)
}
