/** An optional value, for the source's NaN results and rejected edits. */
module Wrappers {
  datatype Option<T> = None | Some(value: T)
}
