/** The Option datatype used for request arguments that may be absent
    (a Python `None`) and for search results. */
module Wrappers {

  datatype Option<+T> = None | Some(value: T)
}
