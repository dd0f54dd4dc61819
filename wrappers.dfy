/** The optional value used wherever the source returns `null`/`undefined` or an absent map entry. */
module Wrappers {
  datatype Option<+T> = None | Some(value: T)
}
