/** The Some/None value pandas represents with NaN: a cell or a label that may be missing. */
module Optional {
  datatype Option<+T> = None | Some(value: T)
}
