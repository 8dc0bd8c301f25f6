/** The usual Option type, for the source's "no such value" returns. */
module Wrappers {
  datatype Option<+T> = None | Some(value: T)
}
