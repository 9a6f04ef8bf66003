/** The value a query returns for an absent row or a null column. */
module Options {
  datatype Option<+T> = None | Some(value: T)
}
