/** The optional value used for "no match", "no suggestion" and similar absent results. */
module Wrappers {

  datatype Option<+T> = None | Some(value: T)
}
