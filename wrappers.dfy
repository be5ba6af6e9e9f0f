/** The optional value that the codec returns for a frame it cannot decode
    and that the session uses for timestamps not yet recorded. */
module Wrappers {
  datatype Option<+T> = None | Some(value: T)
}
