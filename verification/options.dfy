/** The optional value shared by every module. */
module Options {
  /** The conventional optional value; stands for Python's `None`-or-value results. */
  datatype Option<+T> = None | Some(value: T)
}
