/** Option, for values that may be absent: a missing dictionary key, a rejected question. */
module Wrappers {

  datatype Option<+T> = None | Some(value: T)
}
