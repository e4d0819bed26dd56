/** The Option datatype used for partial results (a failed type check, a parse that does not apply). */
module Wrappers {

  datatype Option<+T> = None | Some(value: T)
}
