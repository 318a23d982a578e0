/** The result types shared by every module. */
module Wrappers {

  datatype Option<+T> = None | Some(value: T)

  /** The error codes the modelled code returns; messages are not modelled. */
  datatype ErrorCode =
    | BadRequest
    | NotFound
    | MethodNotAllowed
    | InternalServerError
    | Timeout
    | ConnectionFailed
    | DecodingError
    | InvalidState

  datatype Result<+T> = Ok(value: T) | Err(error: ErrorCode)
}
