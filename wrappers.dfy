/** A value that may be absent: `undefined` or `null` on the page, or a missing storage entry. */
module Wrappers {

  datatype Option<+T> = None | Some(value: T)
}
