/** A value that may be absent: JavaScript's `null` for one state slot or a failed lookup. */
module Wrappers {

  datatype Option<+T> = None | Some(value: T)
}
