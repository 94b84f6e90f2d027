/** The optional value used wherever the Python code returns `None` for
    "no result" (a blank log line, an unparseable time of day). */
module Wrappers {

  datatype Option<+T> = None | Some(value: T)
}
