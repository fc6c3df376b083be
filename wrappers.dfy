/** The optional value used for JavaScript's `null` / `undefined` / empty form text. */
module Wrappers {

  datatype Option<+T> = None | Some(value: T)
}
