/**
 An optional value, shared by the click fallback (which strategy produced
 something) and the naming rules (a headline that could not be read).
 */
module Options {

  /** A value that may be missing. */
  datatype Option<T> = None | Some(value: T)
}
