/** The optional value that Python code returns as "a value or None". */
module Wrappers {

  datatype Option<+T> = None | Some(value: T)
}
