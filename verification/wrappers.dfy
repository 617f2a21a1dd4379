/** The optional value used wherever the source uses `None` or a `dict.get` miss. */
module Wrappers {

  datatype Option<+T> = None | Some(value: T)
}
