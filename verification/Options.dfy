/** A value that may be missing: Python's `None`, and NaN where a tool uses it for "not scored". */
module Options {
  datatype Option<+T> = None | Some(value: T)
}
