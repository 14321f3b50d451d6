/** Optional values, results, the errors the core throws, and the log of calls
    into external collaborators that every pipeline step returns with its result. */
module Outcomes {
  import opened IdentityProto

  datatype Option<+T> = None | Some(value: T)

  /** The thrown values the core tells apart. */
  datatype Error =
    | Unauthorized(message: string)        // an UnauthorizedException (answered with HTTP 401)
    | ConfigurationError(message: string)  // a plain Error thrown at startup
    | CredentialRejected(message: string)  // the error `credential.cert` throws on a bad service account
    | RpcError(failure: RpcFailure)        // the identity call's own rejection, passed on unchanged
    | AppMissing                           // the Admin SDK found no default app to return
    | UndefinedProperty(name: string)      // a TypeError: reading `name` of an undefined field

  /** A value or the error that was thrown instead. */
  datatype Result<+T> = Ok(value: T) | Err(error: Error)

  /** One call into an external collaborator. */
  datatype Call =
    | VerifyIdToken(token: string)                  // the identity provider's token check
    | GetUserContext(request: GetUserContextRequest) // the identity service's RPC

  /** A result together with the external calls made, in order, while producing it. */
  datatype Outcome<+T> = Outcome(result: Result<T>, calls: seq<Call>)

  /** True when `calls` contains an identity-service RPC. */
  predicate CallsIdentityService(calls: seq<Call>)
  {
    exists i :: 0 <= i < |calls| && calls[i].GetUserContext?
  }
}
