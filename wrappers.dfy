/** A value that may be absent: JavaScript's `undefined`, a `NaN` from `parseInt`, a missing route parameter. */
module Wrappers {

  datatype Option<+T> = None | Some(value: T)
}
