/** Rust's `Option`, used for a tile's plant and for the dragged item. */
module Options {
  datatype Option<T> = None | Some(value: T)
}
