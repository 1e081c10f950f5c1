/**
 * Failure-carrying wrappers shared by every stage of the pipeline, and the
 * Python exceptions the modelled code raises.
 */
module Base {

  /** A value that may be missing: a pandas NaN cell, or a lookup that found nothing. */
  datatype Option<+T> = None | Some(value: T)

  /** The outcome of an operation that can raise. */
  datatype Result<+T, +E> = Success(value: T) | Failure(error: E)

  /** The exceptions raised by the modelled code, with the message or key it carries. */
  datatype Error =
    | RuntimeError(message: string)
    | KeyError(key: string)
    | ValueError(message: string)
}
