/** Optional values, results, and the exceptions the backend lets escape. */
module Outcomes {

  datatype Option<T> = None | Some(value: T) {
    function GetOr(default: T): T
    {
      match this
      case Some(v) => v
      case None => default
    }
  }

  /** Why PyJWT's `jwt.decode` raised. */
  datatype JwtError = InvalidSignature | ExpiredSignature | Malformed

  /**
   * An exception that leaves a handler: an HTTPException raised on purpose, a
   * pydantic ValidationError, bson's InvalidId, or an error out of `jwt.decode`.
   */
  datatype Failure =
    | HttpError(status: nat, detail: string)
    | ValidationError
    | InvalidId
    | JwtFailure(reason: JwtError)

  datatype Result<T> = Ok(value: T) | Err(error: Failure)
}
