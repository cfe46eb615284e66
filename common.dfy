/** Failure-compatible wrappers shared by every module of the model. */
module Common {

  /** A value that may be absent: JavaScript's `undefined` / a missing property. */
  datatype Option<+T> = None | Some(value: T)

  /** The outcome of an operation that can throw: `Failure` carries the error. */
  datatype Result<+R, +E> = Success(value: R) | Failure(error: E)

  /** How serious a drug interaction is, in both interaction matchers. */
  datatype Severity = High | Medium | Low

  /** Bytes of an uploaded document. */
  newtype byte = x: int | 0 <= x < 256
}
