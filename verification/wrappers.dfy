/** The optional value used for JavaScript's `null`/`undefined` references. */
module Wrappers {

  datatype Option<+T> = None | Some(value: T)
}
