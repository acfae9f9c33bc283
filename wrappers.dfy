/** The usual optional value: stands for JavaScript's `null` / absent field. */
module Wrappers {
  datatype Option<+T> = None | Some(value: T)
}
