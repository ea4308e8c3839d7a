/** The usual optional-value datatype: `undefined` in the language server becomes `None`. */
module Wrappers {

  datatype Option<+T> = None | Some(value: T)
}
