/** The optional value that the opaque parsers and the credential re-typing step return. */
module Wrappers {

  datatype Option<+T> = None | Some(value: T)
}
