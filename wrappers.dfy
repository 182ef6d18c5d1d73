/** The optional value used wherever the application may have nothing:
    an unnamed character, no selected row, no task in flight. */
module Wrappers {

  datatype Option<+T> = None | Some(value: T)
}
