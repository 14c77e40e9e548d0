/** The optional value used wherever the source has a value-or-null. */
module Wrappers {

  /** `None` stands for the source's `null` (or any falsy stand-in for it). */
  datatype Option<+T> = None | Some(value: T)
}
