/** A value that may be absent: used where the page's script would find no
    matching element. */
module Wrappers {

  datatype Option<+T> = None | Some(value: T)
}
