/** The optional value returned by lookups such as `Array.prototype.find`. */
module Wrappers {

  datatype Option<+T> = None | Some(value: T)
}
