/** The gateway's auth service: token verification with its error mapping, and
    enrichment of a verified identity through the identity service's RPC. */
module AuthenticationService {
  import opened Outcomes
  import opened IdentityProto
  import opened FirebaseAdmin
  import opened UserContexts
  import Firebase

  const InvalidTokenMessage: string := "Invalid or expired Firebase token"

  class AuthService {
    const firebaseService: Firebase.FirebaseService
    const client: ClientGrpc
    /** `this.identityService`: undefined until `onModuleInit` sets it. */
    var identityService: Option<IdentityServiceClient>

    constructor (firebaseService: Firebase.FirebaseService, client: ClientGrpc)
      ensures this.firebaseService == firebaseService && this.client == client
      ensures identityService == None
    {
      this.firebaseService := firebaseService;
      this.client := client;
      identityService := None;
    }

    /** `onModuleInit`: binds the identity-service stub from the injected client. */
    method OnModuleInit()
      modifies this
      ensures identityService == Some(client.getService(IdentityServiceName))
    {
      identityService := Some(client.getService(IdentityServiceName));
    }

    /** `verifyToken`: the provider's decoded token when it accepts, and otherwise one fixed
        unauthorized error whatever went wrong, including an app that was never initialised.
        The provider is asked once, and only when there is an app to ask. */
    function VerifyToken(token: string): (o: Outcome<DecodedIdToken>)
      reads firebaseService
      ensures o.result.Err? ==> o.result.error == Unauthorized(InvalidTokenMessage)
      ensures o.result.Ok? <==>
        firebaseService.app.Some? && firebaseService.app.value.auth.verifyIdToken(token).Verified?
      ensures o.result.Ok? ==> o.result.value == firebaseService.app.value.auth.verifyIdToken(token).decoded
      ensures o.calls == if firebaseService.app.Some? then [VerifyIdToken(token)] else []
    {
      match firebaseService.CurrentAuth()
      case Err(_) => Outcome(Err(Unauthorized(InvalidTokenMessage)), [])
      case Ok(auth) =>
        match auth.verifyIdToken(token)
        case Verified(decoded) => Outcome(Ok(decoded), [VerifyIdToken(token)])
        case Rejected(_) => Outcome(Err(Unauthorized(InvalidTokenMessage)), [VerifyIdToken(token)])
    }

    /** `enrichUserContext`: one RPC keyed by the token's `uid`; the response's fields are
        copied verbatim, the role without any check; an RPC failure is passed on as it is. */
    function EnrichUserContext(firebaseUser: DecodedIdToken): (o: Outcome<UserContext>)
      reads this
      ensures o.calls == if identityService.Some?
                         then [GetUserContext(GetUserContextRequest(firebaseUser.uid))] else []
      ensures identityService.None? ==> o.result == Err(UndefinedProperty("getUserContext"))
      ensures identityService.Some? ==>
        match identityService.value.getUserContext(GetUserContextRequest(firebaseUser.uid))
        case RpcFailed(failure) => o.result == Err(RpcError(failure))
        case RpcOk(response) =>
          o.result.Ok? &&
          o.result.value.userId == response.userId &&
          o.result.value.email == response.email &&
          o.result.value.organizationId == response.organizationId &&
          o.result.value.role == response.role
    {
      var request := GetUserContextRequest(firebaseUser.uid);
      match identityService
      case None => Outcome(Err(UndefinedProperty("getUserContext")), [])
      case Some(stub) =>
        var calls := [GetUserContext(request)];
        match stub.getUserContext(request)
        case RpcFailed(failure) => Outcome(Err(RpcError(failure)), calls)
        case RpcOk(response) =>
          Outcome(Ok(UserContext(response.userId, response.email, response.organizationId, response.role)), calls)
    }
  }

  /** The provider's error detail never reaches the caller: two services whose providers
      reject the same token for different reasons give the same outcome. */
  lemma VerifyDiscardsProviderError(a: AuthService, b: AuthService, token: string)
    requires a.firebaseService.app.Some? && b.firebaseService.app.Some?
    requires a.firebaseService.app.value.auth.verifyIdToken(token).Rejected?
    requires b.firebaseService.app.value.auth.verifyIdToken(token).Rejected?
    ensures a.VerifyToken(token) == b.VerifyToken(token)
  {
  }

  /** Enrichment consults nothing but the stub and the `uid`: tokens with the same `uid`
      are enriched alike, whatever their other claims. */
  lemma EnrichKeyedByUid(a: AuthService, u: DecodedIdToken, v: DecodedIdToken)
    requires u.uid == v.uid
    ensures a.EnrichUserContext(u) == a.EnrichUserContext(v)
  {
  }

  /** The role is cast, not checked: a response carrying a role outside the enum is
      accepted and its role kept. */
  lemma EnrichAcceptsUndeclaredRole(a: AuthService, u: DecodedIdToken, response: UserContextResponse)
    requires a.identityService.Some?
    requires a.identityService.value.getUserContext(GetUserContextRequest(u.uid)) == RpcOk(response)
    requires !IsDeclaredRole(response.role)
    ensures a.EnrichUserContext(u).result.Ok?
    ensures a.EnrichUserContext(u).result.value.role == response.role
    ensures !IsDeclaredRole(a.EnrichUserContext(u).result.value.role)
  {
  }
}
