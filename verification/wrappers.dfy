/** The optional value used wherever the store answers "absent" (a Python `None`). */
module Wrappers {

  datatype Option<+T> = None | Some(value: T)
}
