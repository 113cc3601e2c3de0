/** Python's `None`-or-value results, as an explicit datatype. */
module Optional {
  datatype Option<+T> = None | Some(value: T)
}
