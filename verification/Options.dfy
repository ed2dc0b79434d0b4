/** An optional value, for SQL NULLs and absent answers. */
module Options {
  datatype Option<+T> = None | Some(value: T)
}
