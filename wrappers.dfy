/** The optional value used for "no result" answers (a failed number parse, an empty export). */
module Wrappers {
  datatype Option<+T> = None | Some(value: T)
}
