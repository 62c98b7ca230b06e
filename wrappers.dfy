/** Option and Result: a lookup that may find nothing, and a step that may raise. */
module Wrappers {

  datatype Option<+T> = None | Some(value: T)

  /** The Python exceptions that end a whole run when nothing catches them. */
  datatype Error = ValueError | KeyError

  datatype Result<+T> = Success(value: T) | Failure(error: Error)
}
