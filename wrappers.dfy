/** The optional value used wherever the program returns `None`/`null`
    or falls back on a default. */
module Wrappers {

  datatype Option<+T> = None | Some(value: T)
}
