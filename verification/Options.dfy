/** Absent values, in place of PHP's `false` and `null`. */
module Options {
  datatype Option<+T> = None | Some(value: T)
}
