/** The nullable value of the source (`IntPtr?`), as an Option. */
module Wrappers {

  datatype Option<+T> = None | Some(value: T)
}
