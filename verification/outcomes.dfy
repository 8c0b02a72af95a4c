/** Optional values and handler results shared by every part of the model. */
module Outcomes {

  /** A value that may be absent: a missing request field, a lookup that found nothing. */
  datatype Option<+T> = None | Some(value: T) {

    /** The carried value, or `default` when there is none. */
    function GetOr(default: T): T {
      match this
      case Some(v) => v
      case None => default
    }
  }

  /** How a request handler fails. `NotFound` is the explicit 404 reply a handler
      writes itself; `Failed` is the generic 500 reply that every error thrown by
      the persistence layer (or by the handler's own code) turns into. */
  datatype Error = NotFound | Failed

  /** The outcome of a request handler: the JSON body it sends, or how it failed. */
  datatype Result<+T> = Ok(value: T) | Err(error: Error)
}
