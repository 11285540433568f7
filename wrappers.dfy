/** Option type used where the source returns a string sentinel ("none") or nothing. */
module Wrappers {

  datatype Option<+T> = None | Some(value: T)
}
