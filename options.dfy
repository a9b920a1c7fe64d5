/** The optional value that the engine's functions return (Rust's `Option`). */
module Options {
  datatype Option<+T> = None | Some(value: T)
}
