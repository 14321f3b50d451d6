/** The Passport strategy guarding the gateway's routes: reads the bearer token from
    the `Authorization` header, verifies it, then enriches the verified identity. */
module FirebaseStrategy {
  import opened Outcomes
  import opened IdentityProto
  import opened FirebaseAdmin
  import opened UserContexts
  import opened JsStrings
  import opened AuthenticationService

  const BearerPrefix: string := "Bearer "
  const MissingHeaderMessage: string := "Missing or invalid Authorization header"

  /** An inbound request; header names are lower-case, as Express stores them. */
  datatype Request = Request(headers: map<string, string>)

  /** `req.headers.authorization`. */
  function AuthorizationHeader(req: Request): (h: Option<string>)
    ensures h.Some? <==> "authorization" in req.headers
    ensures h.Some? ==> h.value == req.headers["authorization"]
  {
    if "authorization" in req.headers then Some(req.headers["authorization"]) else None
  }

  /** `authHeader?.startsWith('Bearer ')`: false for an absent header. */
  predicate IsBearerHeader(h: Option<string>)
    ensures IsBearerHeader(h) ==> h.Some? && |Split(h.value, ' ')| >= 2 && Split(h.value, ' ')[0] == "Bearer"
  {
    match h
    case None => false
    case Some(header) =>
      if StartsWith(header, BearerPrefix) then
        var rest := header[|BearerPrefix|..];
        assert header == "Bearer" + [' '] + rest;
        SplitAfterSeparator("Bearer", rest, ' ');
        true
      else
        false
  }

  /** `authHeader.split(' ')[1]`: the longest run of non-space characters right after the
      space that ends the prefix; it is empty when another space or the end comes first. */
  function ExtractToken(header: string): (token: string)
    requires StartsWith(header, BearerPrefix)
    ensures |BearerPrefix| + |token| <= |header|
    ensures token == header[|BearerPrefix|..|BearerPrefix| + |token|]
    ensures ' ' !in token
    ensures |BearerPrefix| + |token| == |header| || header[|BearerPrefix| + |token|] == ' '
  {
    var rest := header[|BearerPrefix|..];
    assert header == "Bearer" + [' '] + rest;
    SplitAfterSeparator("Bearer", rest, ' ');
    SplitHead(rest, ' ');
    Split(header, ' ')[1]
  }

  /** The token is determined by the header: `a` when the header is the prefix, then `a`,
      then the end or a space. */
  lemma {:induction false} ExtractTokenIs(header: string, a: string, tail: string)
    requires header == BearerPrefix + a + tail
    requires ' ' !in a
    requires tail == [] || tail[0] == ' '
    ensures StartsWith(header, BearerPrefix)
    ensures ExtractToken(header) == a
  {
    assert header[..|BearerPrefix|] == BearerPrefix;
    var t := ExtractToken(header);
    var p := |BearerPrefix|;
    assert header[p..p + |a|] == a;
  }

  /** The whole rest of the header when it holds no space. */
  lemma TokenExample()
    ensures ExtractToken("Bearer abc123") == "abc123"
  {
    ExtractTokenIs("Bearer abc123", "abc123", "");
  }

  /** Only the first word after the prefix. */
  lemma TokenStopsAtSpace()
    ensures ExtractToken("Bearer a b") == "a"
  {
    ExtractTokenIs("Bearer a b", "a", " b");
  }

  /** No emptiness check: nothing after the prefix, or a second space right after it,
      gives the empty token. */
  lemma EmptyTokenExamples()
    ensures ExtractToken("Bearer ") == ""
    ensures ExtractToken("Bearer  x") == ""
  {
    ExtractTokenIs("Bearer ", "", "");
    ExtractTokenIs("Bearer  x", "", " x");
  }

  /** The scheme test is exact: a lower-case scheme, another scheme, a missing space or
      an empty header is not a bearer header. */
  lemma SchemeIsExact()
    ensures !IsBearerHeader(Some("bearer abc"))
    ensures !IsBearerHeader(Some("Token xyz"))
    ensures !IsBearerHeader(Some("Bearer"))
    ensures !IsBearerHeader(Some(""))
    ensures !IsBearerHeader(None)
  {
    assert "bearer abc"[..7] != BearerPrefix by { assert "bearer abc"[0] != BearerPrefix[0]; }
    assert "Token xyz"[..7] != BearerPrefix by { assert "Token xyz"[0] != BearerPrefix[0]; }
  }

  /** `validate`: rejects a missing or non-bearer header before calling anything; otherwise
      verifies the extracted token and, only when that succeeds, enriches exactly the
      decoded token the verifier returned and returns the enrichment's outcome unchanged. */
  function Validate(authService: AuthService, req: Request): (o: Outcome<UserContext>)
    reads authService, authService.firebaseService
    ensures !IsBearerHeader(AuthorizationHeader(req)) ==>
      o.result == Err(Unauthorized(MissingHeaderMessage)) && o.calls == []
    ensures IsBearerHeader(AuthorizationHeader(req)) ==>
      var verified := authService.VerifyToken(ExtractToken(AuthorizationHeader(req).value));
      |verified.calls| <= |o.calls| && o.calls[..|verified.calls|] == verified.calls &&
      (verified.result.Err? ==> o.result == Err(verified.result.error) && o.calls == verified.calls) &&
      (verified.result.Ok? ==>
        var enriched := authService.EnrichUserContext(verified.result.value);
        o.result == enriched.result && o.calls == verified.calls + enriched.calls)
  {
    var authHeader := AuthorizationHeader(req);
    if !IsBearerHeader(authHeader) then
      Outcome(Err(Unauthorized(MissingHeaderMessage)), [])
    else
      var token := ExtractToken(authHeader.value);
      var verified := authService.VerifyToken(token);
      match verified.result
      case Err(e) => Outcome(Err(e), verified.calls)
      case Ok(decodedToken) =>
        var enriched := authService.EnrichUserContext(decodedToken);
        Outcome(enriched.result, verified.calls + enriched.calls)
  }

  // ---------------------------------------------------------------------------
  // The pipeline in terms of the two external collaborators
  // ---------------------------------------------------------------------------

  /** What the provider says about `token`, when there is an app to ask. */
  function ProviderVerdict(authService: AuthService, token: string): (v: Option<VerifyResult>)
    reads authService.firebaseService
    ensures v.Some? <==> authService.firebaseService.app.Some?
  {
    match authService.firebaseService.app
    case None => None
    case Some(app) => Some(app.auth.verifyIdToken(token))
  }

  /** The external calls `validate` makes, in order: none for a rejected header; the token
      check alone when verification fails or the stub is unbound; the token check followed by
      one RPC for the decoded `uid` otherwise. */
  lemma ValidateCalls(authService: AuthService, req: Request)
    ensures var o := Validate(authService, req);
      var h := AuthorizationHeader(req);
      if !IsBearerHeader(h) then o.calls == []
      else
        var token := ExtractToken(h.value);
        var verdict := ProviderVerdict(authService, token);
        if verdict.None? then o.calls == []
        else if verdict.value.Rejected? || authService.identityService.None? then
          o.calls == [VerifyIdToken(token)]
        else
          o.calls == [VerifyIdToken(token), GetUserContext(GetUserContextRequest(verdict.value.decoded.uid))]
  {
  }

  /** The identity service is called only for a token the provider accepted, after the
      token check and with that token's `uid`. */
  lemma EnrichOnlyAfterVerify(authService: AuthService, req: Request)
    ensures var o := Validate(authService, req);
      CallsIdentityService(o.calls) ==>
        IsBearerHeader(AuthorizationHeader(req)) &&
        var token := ExtractToken(AuthorizationHeader(req).value);
        var verdict := ProviderVerdict(authService, token);
        verdict.Some? && verdict.value.Verified? &&
        o.calls == [VerifyIdToken(token), GetUserContext(GetUserContextRequest(verdict.value.decoded.uid))]
  {
    ValidateCalls(authService, req);
  }

  /** End to end: `validate` succeeds exactly when the header is a bearer header, the provider
      accepts its token and the RPC for the decoded `uid` succeeds; the result is then that
      response's fields, role included, unchanged. */
  lemma ValidateSucceeds(authService: AuthService, req: Request)
    ensures var o := Validate(authService, req);
      var h := AuthorizationHeader(req);
      o.result.Ok? <==>
        IsBearerHeader(h) &&
        var verdict := ProviderVerdict(authService, ExtractToken(h.value));
        verdict.Some? && verdict.value.Verified? && authService.identityService.Some? &&
        authService.identityService.value.getUserContext(GetUserContextRequest(verdict.value.decoded.uid)).RpcOk?
    ensures var o := Validate(authService, req);
      o.result.Ok? ==>
        var verdict := ProviderVerdict(authService, ExtractToken(AuthorizationHeader(req).value));
        var response := authService.identityService.value.getUserContext(
                          GetUserContextRequest(verdict.value.decoded.uid)).response;
        o.result.value == UserContext(response.userId, response.email, response.organizationId, response.role)
  {
  }

  /** The failure classes: a header failure makes no call and carries its own message;
      every verification failure carries the other message; only the enrichment step
      yields anything else, and an RPC failure comes back exactly as the stub gave it. */
  lemma ValidateFailures(authService: AuthService, req: Request)
    ensures MissingHeaderMessage != InvalidTokenMessage
    ensures var o := Validate(authService, req);
      o.result.Err? ==>
        (o.result.error == Unauthorized(MissingHeaderMessage) <==> !IsBearerHeader(AuthorizationHeader(req)))
    ensures var o := Validate(authService, req);
      o.result.Err? && IsBearerHeader(AuthorizationHeader(req)) ==>
        var verdict := ProviderVerdict(authService, ExtractToken(AuthorizationHeader(req).value));
        if verdict.None? || verdict.value.Rejected? then o.result.error == Unauthorized(InvalidTokenMessage)
        else if authService.identityService.None? then o.result.error == UndefinedProperty("getUserContext")
        else o.result.error == RpcError(authService.identityService.value.getUserContext(
                                          GetUserContextRequest(verdict.value.decoded.uid)).failure)
  {
    assert MissingHeaderMessage[0] != InvalidTokenMessage[0];
  }

  /** `validate` is declared to return the gateway type, whose role is ADMIN or USER, but
      it returns whatever role the identity service sent: an OWNER answer comes back as a
      record whose role the gateway type does not admit. */
  lemma ValidateReturnsRoleOutsideGatewayType(authService: AuthService, req: Request, header: string,
                                               decoded: DecodedIdToken, response: UserContextResponse)
    requires AuthorizationHeader(req) == Some(header)
    requires StartsWith(header, BearerPrefix)
    requires authService.firebaseService.app.Some?
    requires authService.firebaseService.app.value.auth.verifyIdToken(ExtractToken(header)) == Verified(decoded)
    requires authService.identityService.Some?
    requires authService.identityService.value.getUserContext(GetUserContextRequest(decoded.uid)) == RpcOk(response)
    requires response.role == "OWNER"
    ensures Validate(authService, req).result.Ok?
    ensures AsGatewayContext(Validate(authService, req).result.value).role == "OWNER"
    ensures !IsGatewayRole(AsGatewayContext(Validate(authService, req).result.value).role)
  {
  }

  /** A request with `Bearer abc123`, a provider that decodes it to `uid_1` and an identity
      service answering with organisation `org_9` and role ADMIN yields that context. */
  lemma ValidateScenario(authService: AuthService, req: Request, header: string, decoded: DecodedIdToken)
    requires header == "Bearer abc123"
    requires AuthorizationHeader(req) == Some(header)
    requires decoded.uid == "uid_1"
    requires authService.firebaseService.app.Some?
    requires authService.firebaseService.app.value.auth.verifyIdToken("abc123") == Verified(decoded)
    requires authService.identityService.Some?
    requires authService.identityService.value.getUserContext(GetUserContextRequest("uid_1"))
             == RpcOk(UserContextResponse("uid_1", "", "org_9", "ADMIN"))
    ensures Validate(authService, req).result == Ok(UserContext("uid_1", "", "org_9", "ADMIN"))
    ensures Validate(authService, req).calls
            == [VerifyIdToken("abc123"), GetUserContext(GetUserContextRequest("uid_1"))]
  {
    ExtractTokenIs(header, "abc123", "");
  }
}
