/** A nullable reference or value: C#'s `null` is `None`. */
module Wrappers {
  datatype Option<+T> = None | Some(value: T)
}
