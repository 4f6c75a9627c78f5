/** Failure-compatible wrappers shared by every service of the backend.

    - Option<T> stands for a nullable value (`T | null`) or an optional DTO field.
    - Error is the backend's exception taxonomy (the HTTP exceptions the services
      throw, plus the database refusing a write).
    - Result<T> is what a service method returns: its value, or the exception it throws.
    - Envelope<T> is the `{status, data | message}` body a controller returns itself.
 */
module Results {

  datatype Option<+T> = None | Some(value: T) {

    /** The value, or `default` when absent (the source's `x ?? default`). */
    function GetOr(default: T): T {
      if Some? then value else default
    }
  }

  /** A string field that JavaScript treats as truthy: present and non-empty. */
  predicate Filled(s: Option<string>) {
    s.Some? && s.value != ""
  }

  datatype Error =
    | Unauthorized(message: string)
    | Forbidden(message: string)
    | NotFound(message: string)
    | Conflict(message: string)
    | BadRequest(message: string)
      /** The upload interceptor's size limit was exceeded. */
    | PayloadTooLarge
      /** The database refused the write (missing row or foreign-key violation);
          the services do not catch this, so it surfaces as a server error. */
    | StoreRejected

  datatype Result<+T> = Ok(value: T) | Err(error: Error) {

    predicate IsFailure() {
      Err?
    }

    function PropagateFailure<U>(): Result<U>
      requires Err?
    {
      Err(error)
    }

    function Extract(): T
      requires Ok?
    {
      value
    }
  }

  /** The response body a controller builds by hand. */
  datatype Envelope<+T> = Success(data: T) | Failure(message: string)
}
