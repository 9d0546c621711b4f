/** A value that may be absent: `Option` in the Rust sources, `undefined` or `null` in the TypeScript ones. */
module Options {
  datatype Option<+T> = None | Some(value: T)
}
