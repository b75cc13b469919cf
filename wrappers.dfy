/** The optional value shared by the modules of this model. */
module Wrappers {

  /** A value that may be absent; stands for a TypeScript `T | null`. */
  datatype Option<+T> = None | Some(value: T)
}
