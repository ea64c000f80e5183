/** A nullable column or an absent result. */
module Wrappers {

  datatype Option<+T> = None | Some(value: T)
}
