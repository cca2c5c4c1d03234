module Options {
  /** Python's `T | None` and TypeScript's `T | undefined`. */
  datatype Option<+T> = None | Some(value: T)
}
