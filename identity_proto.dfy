/** The gateway's view of the identity service's gRPC contract: the request and
    response records and the client stub, whose behaviour is supplied from outside. */
module IdentityProto {

  /** Request of the unary `GetUserContext` call: only the provider's subject id. */
  datatype GetUserContextRequest = GetUserContextRequest(firebaseUid: string)

  /** Response of `GetUserContext`; `role` is a plain string on the wire. */
  datatype UserContextResponse =
    UserContextResponse(userId: string, email: string, organizationId: string, role: string)

  /** Whatever the transport rejects with (status code and details). */
  datatype RpcFailure = RpcFailure(code: int, details: string)

  /** What one `GetUserContext` call ends with, once its observable has completed. */
  datatype RpcResult = RpcOk(response: UserContextResponse) | RpcFailed(failure: RpcFailure)

  /** The typed stub returned by `ClientGrpc.getService`; its behaviour is an uninterpreted function. */
  datatype IdentityServiceClient = IdentityServiceClient(getUserContext: GetUserContextRequest -> RpcResult)

  /** The injected gRPC client: looks a service stub up by its name. */
  datatype ClientGrpc = ClientGrpc(getService: string -> IdentityServiceClient)

  /** The service name the gateway asks the client for. */
  const IdentityServiceName: string := "IdentityService"
}
