/** The `None`-or-value results the engine's helpers return. */
module Optional {
  datatype Option<+T> = None | Some(value: T)
}
