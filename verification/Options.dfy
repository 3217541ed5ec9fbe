// A value, or none: Ruby's nil where a value may be missing.
module Options {
  datatype Option<+T> = None | Some(value: T)
}
