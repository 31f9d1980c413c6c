/** The optional value used for the engine's "False or a value" returns. */
module Wrappers {

  datatype Option<+T> = None | Some(value: T)
}
