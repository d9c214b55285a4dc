/** Optional values and the error results every procedure of the API can end in. */
module Wrappers {

  datatype Option<+T> = None | Some(value: T)

  /** The kinds of failure a procedure reports to its caller. `Unauthorized` and
      `Forbidden` are the tRPC error codes thrown by the guards and routers;
      `BadRequest` is a rejected input (zod validation); `NotFound` is a
      `findUniqueOrThrow`/`update` on an id that does not resolve;
      `ForeignKeyViolation` is a row whose reference the store refuses. */
  datatype ErrorCode = Unauthorized | Forbidden | BadRequest | NotFound | ForeignKeyViolation

  datatype Result<+T> = Success(value: T) | Failure(error: ErrorCode)
}
