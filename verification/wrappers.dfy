/** The optional-value datatype used for the attribute store and for parsing. */
module Wrappers {

  /** Either nothing, or one value. */
  datatype Option<+T> = None | Some(value: T)
}
