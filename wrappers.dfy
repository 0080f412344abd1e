/** The optional values the order handler works with: JavaScript's `null` and
    `undefined` both become `None`. */
module Wrappers {

  datatype Option<+T> = None | Some(value: T)
}
