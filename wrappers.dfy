/** A value that may be absent: a missing manifest key, an unparsable number, a failed request. */
module Wrappers {

  datatype Option<+T> = None | Some(value: T)
}
