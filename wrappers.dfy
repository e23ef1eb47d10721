/** A nullable value: SQL NULL is `None`. */
module Wrappers {

  datatype Option<+T> = None | Some(value: T)
}
