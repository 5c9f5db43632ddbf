/** An optional value: a present connection slot, a supplied message field. */
module Wrappers {

  datatype Option<+T> = None | Some(value: T)
}
