/** The optional value the scanners return in place of C out-parameters. */
module Wrappers {
  datatype Option<+T> = None | Some(value: T)
}
