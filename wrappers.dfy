/** The usual optional-value wrapper, used for missing files and failed parses. */
module Wrappers {

  datatype Option<+T> = None | Some(value: T)
}
