/** The optional value used wherever the handlers meet a lookup that may fail
    (a token that does not parse, a session that is not connected, a mail key
    that is absent). */
module Wrappers {

  datatype Option<+T> = None | Some(value: T)
}
