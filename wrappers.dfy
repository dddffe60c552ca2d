/** The optional value used for C#'s nullable fields and for "not found". */
module Wrappers {

  datatype Option<+T> = None | Some(value: T)
}
