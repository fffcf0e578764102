/** Absent values: a blank form field, Python's `None`, or a pandas NaN cell. */
module Wrappers {

  datatype Option<+T> = None | Some(value: T)
}
