/** The optional values of the source: `undefined`, `null` and `find` misses. */
module Wrappers {

  datatype Option<+T> = None | Some(value: T)
}
