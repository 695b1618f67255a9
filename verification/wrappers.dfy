/** The Option datatype used for the source's `None` results. */
module Wrappers {

  datatype Option<+T> = None | Some(value: T)
}
