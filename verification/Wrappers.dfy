/** Results that several modules share. */
module Wrappers {
  /** The result of a step that may find no more input. */
  datatype Option<+T> = None | Some(value: T)

  /** The result codes of the decoders. */
  datatype SRes = SzOk | SzErrorData | SzErrorFail
}
