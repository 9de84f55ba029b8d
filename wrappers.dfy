/** Failure-compatible wrapper shared by the modules of the model. */
module Wrappers {

  /** A value that may be absent: an error path of the source, a null pointer,
      a lookup that found nothing. */
  datatype Option<+T> = None | Some(value: T)
}
