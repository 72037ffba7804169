/** Option and the result of an RPC procedure: a value or a tRPC error with its code. */
module Wrappers {

  datatype Option<+T> = None | Some(value: T)

  /** The tRPC error codes the procedures raise. */
  datatype ErrorCode = BadRequest | Unauthorized | NotFound | Conflict | InternalServerError

  datatype ApiError = ApiError(code: ErrorCode, message: string)

  /** What a procedure call yields: its value, or the error it throws. */
  datatype Result<+T> = Ok(value: T) | Err(error: ApiError)
}
