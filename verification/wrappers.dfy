/** The optional-value datatype shared by the other modules. */
module Wrappers {

  /** A value that may be missing: `None` plays the part of JavaScript's
      `undefined`/`null`. */
  datatype Option<+T> = None | Some(value: T)
}
