/** The optional-value type shared by the other modules. */
module Wrappers {

  /** A value that may be absent: a missing settings file, a tray icon not yet created,
      a string that does not parse. */
  datatype Option<+T> = None | Some(value: T)
}
