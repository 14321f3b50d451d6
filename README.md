# Verify-then-enrich authentication in the API gateway, modelled in Dafny

The API gateway guards its routes with a Passport strategy. The strategy reads the
bearer token from the `Authorization` header. It has the Firebase Admin SDK verify the
token, then asks the identity service over gRPC for the caller's organisation and role.
The result is a `UserContext` record. At startup the Firebase service reads the
service-account credential from the configuration and initialises the SDK's default app
once per process.

The model has these modules:

- `IdentityProto` (`identity_proto.dfy`): the RPC contract records and the client stub.
  The stub's behaviour is an uninterpreted function.
- `Outcomes` (`outcomes.dfy`): `Option`, `Result`, the errors the core throws, and
  `Outcome`. An `Outcome` is a result plus the ordered list of external calls made to get
  it (`VerifyIdToken(token)`, `GetUserContext(request)`). This list is how the model states
  that a collaborator was "never called", was "called exactly once", or was called in a
  given order.
- `UserContexts` (`user_context.dfy`): the shared `UserContext`, the gateway-local
  `UserContext`, and the `Role` enum.
- `JsStrings` (`js_strings.dfy`): JavaScript's `startsWith`, and `split` with a
  one-character separator.
- `FirebaseAdmin` (`firebase_admin.dfy`): the Admin SDK's decoded token, its token check
  (an uninterpreted function per app), `credential.cert` (another uninterpreted function,
  which may reject the service account) and its global app registry (a class).
- `Firebase` (`firebase_service.dfy`): `getCredential`, the private-key rewrite
  `replace(/\\n/g, '\n')`, and the `FirebaseService` class with its `auth` getter and
  `onModuleInit`.
- `AuthenticationService` (`auth_service.dfy`): the `AuthService` class, with
  `onModuleInit`, `verifyToken` and `enrichUserContext`.
- `FirebaseStrategy` (`firebase_strategy.dfy`): `validate` and the end-to-end lemmas about
  it.

The model follows the code in these four respects:

- There is no check that the role is one of OWNER, ADMIN and USER. `role` is a bare cast,
  so any string passes through unchanged.
- There is no emptiness check on the token. `Bearer ` and `Bearer  x` both pass the empty
  token to the verifier.
- An RPC failure is not turned into an enrichment-specific error. It propagates as it is.
- There is no RPC timeout and no cancellation.

## Model

| member | source | states |
|---|---|---|
| `UserContexts.AsGatewayContext` | apps/api-gateway/src/common/types/user-context.type.ts:1-6 | The shared record seen through the gateway-local type always has `email` present. |
| `UserContexts.AsSharedContext` | libs/shared/src/types/user-context.type.ts:3-8 | A gateway record reads back as a shared one exactly when its `email` is present. |
| `UserContexts.GatewayViewLossless` | apps/api-gateway/src/common/types/user-context.type.ts:1-6 | Viewing the shared record through the gateway type loses no field. |
| `JsStrings.StartsWith` | apps/api-gateway/src/auth/strategies/firebase.strategy.ts:21 | `startsWith` holds exactly when the string is the prefix followed by some rest. |
| `JsStrings.Split` | apps/api-gateway/src/auth/strategies/firebase.strategy.ts:27 | `split` yields one piece more than there are separators, and no piece contains the separator. |
| `JsStrings.JoinSplit` | apps/api-gateway/src/auth/strategies/firebase.strategy.ts:27 | Joining the pieces of a split with the separator gives back the original string. |
| `JsStrings.SplitHead` | apps/api-gateway/src/auth/strategies/firebase.strategy.ts:27 | The first piece is the longest separator-free prefix of the string. |
| `JsStrings.SplitAfterSeparator` | apps/api-gateway/src/auth/strategies/firebase.strategy.ts:27 | A separator-free prefix followed by the separator becomes the first piece, and the rest is split on its own. |
| `FirebaseAdmin.FindApp` | apps/api-gateway/src/firebase/firebase.service.ts:28 | Finds a registered app with the given name, or reports that no app has that name. |
| `FirebaseAdmin.AdminSdk.DefaultApp` | apps/api-gateway/src/firebase/firebase.service.ts:28 | `admin.app()` returns a registered app named `[DEFAULT]`; it fails with the SDK's error exactly when none is registered. |
| `FirebaseAdmin.AdminSdk.InitializeApp` | apps/api-gateway/src/firebase/firebase.service.ts:21-24 | Registers a default app built from the given options, appended to the registry. |
| `Firebase.Lookup` | apps/api-gateway/src/firebase/firebase.service.ts:49-51 | `configService.get` gives the configured value when the key is present and undefined otherwise. |
| `Firebase.Configured` | apps/api-gateway/src/firebase/firebase.service.ts:53 | A setting passes the truthiness test exactly when `get` yields neither undefined nor the empty string. |
| `Firebase.UnescapeNewlines` | apps/api-gateway/src/firebase/firebase.service.ts:63 | The rewrite never lengthens the key, and every character it yields is a character of the key or a newline. |
| `Firebase.UnescapeLength` | apps/api-gateway/src/firebase/firebase.service.ts:63 | The rewritten key is shorter than the input by exactly the number of backslash-`n` pairs. |
| `Firebase.UnescapeLeavesNoEscape` | apps/api-gateway/src/firebase/firebase.service.ts:63 | The rewritten key contains no backslash followed by `n`. |
| `Firebase.UnescapeWithoutEscape` | apps/api-gateway/src/firebase/firebase.service.ts:63 | A key containing no backslash-`n` pair is left unchanged. |
| `Firebase.UnescapeIdempotent` | apps/api-gateway/src/firebase/firebase.service.ts:63 | Applying the rewrite a second time changes nothing. |
| `Firebase.UnescapeEscape` | apps/api-gateway/src/firebase/firebase.service.ts:63 | A key whose newlines were written as backslash-`n` gets its newlines back, as long as the key itself holds no such pair. |
| `Firebase.EscapeUnescape` | apps/api-gateway/src/firebase/firebase.service.ts:63 | For a key without real newlines, escaping the rewrite gives the key back, so every character outside a pair is kept in order. |
| `Firebase.UnescapeUnits` | apps/api-gateway/src/firebase/firebase.service.ts:63 | A backslash-`n` pair on its own becomes one newline, and any single character on its own is kept. |
| `Firebase.UnescapeAppend` | apps/api-gateway/src/firebase/firebase.service.ts:63 | Cutting the key anywhere that does not split a backslash-`n` pair and rewriting the two pieces separately gives the same result. Together with `UnescapeUnits` this fixes the output on every key: each pair becomes a newline in its place, and every other character is kept in order. |
| `Firebase.UnescapeHead` | apps/api-gateway/src/firebase/firebase.service.ts:63 | The rewrite starts with `n` exactly when its input does. |
| `Firebase.EscapeHead` | apps/api-gateway/src/firebase/firebase.service.ts:63 | The escaped key starts with a backslash for a newline and with the character itself otherwise. |
| `Firebase.ServiceAccountFor` | apps/api-gateway/src/firebase/firebase.service.ts:49-63 | The record handed to `cert` exists exactly when the private key, client email and project id are all present and non-empty; otherwise the result is the fixed configuration error. The project id and client email pass through unchanged. The key becomes its rewrite, has no backslash-`n` pair left, and is shorter by the number of pairs. |
| `Firebase.GetCredential` | apps/api-gateway/src/firebase/firebase.service.ts:48-65 | The configuration error occurs exactly when a setting is missing or empty. Otherwise the result is `cert`'s verdict on the rewritten record: its credential, or its rejection passed on unchanged. |
| `Firebase.FirebaseService.constructor` | apps/api-gateway/src/firebase/firebase.service.ts:13-15 | A new service holds the given configuration and has no app yet. |
| `Firebase.FirebaseService.CurrentAuth` | apps/api-gateway/src/firebase/firebase.service.ts:44-46 | The `auth` getter returns the app's auth service; with no app it throws a TypeError. |
| `Firebase.FirebaseService.OnModuleInit` | apps/api-gateway/src/firebase/firebase.service.ts:17-31 | With an empty registry: a failing `getCredential` (missing setting or rejected by `cert`) throws its error and changes nothing; a credential registers exactly one default app, built from it and the configured project id, and stores it. With a non-empty registry: the registry is unchanged and the existing default app is stored, whatever the configuration says; if no registered app is `[DEFAULT]`, it fails with the SDK's no-app error and stores nothing. |
| `AuthenticationService.AuthService.constructor` | apps/api-gateway/src/auth/auth.service.ts:20-25 | A new service holds its collaborators and has no identity-service stub yet. |
| `AuthenticationService.AuthService.OnModuleInit` | apps/api-gateway/src/auth/auth.service.ts:27-30 | Binds the stub that the client returns for `IdentityService`. |
| `AuthenticationService.AuthService.VerifyToken` | apps/api-gateway/src/auth/auth.service.ts:32-38 | Succeeds exactly when there is an app and its provider accepts the token, and then returns the provider's decoded token unchanged. Every failure is the fixed "Invalid or expired Firebase token" error, including a getter that throws. The provider is called once, and only when an app exists. |
| `AuthenticationService.AuthService.EnrichUserContext` | apps/api-gateway/src/auth/auth.service.ts:40-56 | Makes exactly one RPC, whose request carries only the token's `uid`. userId, email, organizationId and role are copied verbatim from the response. An RPC failure propagates as it is. Without a bound stub it throws and makes no call. |
| `AuthenticationService.VerifyDiscardsProviderError` | apps/api-gateway/src/auth/auth.service.ts:35-37 | Two providers that reject a token for different reasons produce identical outcomes, so the provider's error never reaches the caller. |
| `AuthenticationService.EnrichKeyedByUid` | apps/api-gateway/src/auth/auth.service.ts:40-48 | Enrichment depends only on the stub and the `uid`; nothing else is consulted. |
| `AuthenticationService.EnrichAcceptsUndeclaredRole` | apps/api-gateway/src/auth/auth.service.ts:54 | A response whose role is outside the enum is still accepted, and its role is kept. |
| `FirebaseStrategy.AuthorizationHeader` | apps/api-gateway/src/auth/strategies/firebase.strategy.ts:19 | The header is present exactly when the request carries `authorization`, and then it is that value. |
| `FirebaseStrategy.IsBearerHeader` | apps/api-gateway/src/auth/strategies/firebase.strategy.ts:21 | A header that passes the prefix test splits on spaces into at least two pieces, the first being `Bearer`, so `split(' ')[1]` exists. |
| `FirebaseStrategy.ExtractToken` | apps/api-gateway/src/auth/strategies/firebase.strategy.ts:27 | The token is the longest run of non-space characters right after the prefix's space. |
| `FirebaseStrategy.ExtractTokenIs` | apps/api-gateway/src/auth/strategies/firebase.strategy.ts:27 | When the header is the prefix, then a space-free word, then the end or a space, the token is that word. |
| `FirebaseStrategy.TokenExample` | apps/api-gateway/src/auth/strategies/firebase.strategy.ts:27 | `Bearer abc123` yields `abc123`. |
| `FirebaseStrategy.TokenStopsAtSpace` | apps/api-gateway/src/auth/strategies/firebase.strategy.ts:27 | `Bearer a b` yields `a`. |
| `FirebaseStrategy.EmptyTokenExamples` | apps/api-gateway/src/auth/strategies/firebase.strategy.ts:27-30 | `Bearer ` and `Bearer  x` both yield the empty token. |
| `FirebaseStrategy.SchemeIsExact` | apps/api-gateway/src/auth/strategies/firebase.strategy.ts:21 | A lower-case scheme, another scheme, a bare `Bearer`, an empty header and an absent header all fail the prefix test. |
| `FirebaseStrategy.Validate` | apps/api-gateway/src/auth/strategies/firebase.strategy.ts:18-33 | An absent or non-bearer header fails with "Missing or invalid Authorization header" and makes no call. Otherwise verification's calls come first. A verification error propagates and enrichment never runs. After a successful verification, enrichment gets exactly the decoded token, and its result is returned unchanged. |
| `FirebaseStrategy.ProviderVerdict` | apps/api-gateway/src/auth/auth.service.ts:34 | There is a provider verdict exactly when the Firebase app exists. |
| `FirebaseStrategy.ValidateCalls` | apps/api-gateway/src/auth/strategies/firebase.strategy.ts:21-32 | The external calls, in order. A rejected header or no app: no call. A rejected token or no stub: the token check only. Otherwise: the token check, then one RPC for the decoded `uid`. |
| `FirebaseStrategy.EnrichOnlyAfterVerify` | apps/api-gateway/src/auth/strategies/firebase.strategy.ts:29-32 | If the identity service is called at all, the header was a bearer header and the provider accepted its token. The calls are then exactly the token check followed by one RPC carrying that token's `uid`. |
| `FirebaseStrategy.ValidateSucceeds` | apps/api-gateway/src/auth/strategies/firebase.strategy.ts:18-32 | Success needs all of: a bearer header, a provider that accepts its token, a bound stub, and a successful RPC for the decoded `uid`. The result is then that response's fields, unchanged. |
| `FirebaseStrategy.ValidateFailures` | apps/api-gateway/src/auth/strategies/firebase.strategy.ts:21-32 | The header error and the token error carry different messages. The header error occurs exactly when the header is rejected. Every verification failure gives the token error. An enrichment failure gives the stub's own RPC failure, or the TypeError of an unbound stub. |
| `FirebaseStrategy.ValidateReturnsRoleOutsideGatewayType` | apps/api-gateway/src/auth/strategies/firebase.strategy.ts:18-32 | `validate` is declared to return the gateway type, but when the identity service answers OWNER it succeeds with a record whose role the gateway type does not admit. |
| `FirebaseStrategy.ValidateScenario` | apps/api-gateway/src/auth/strategies/firebase.strategy.ts:18-33 | `Bearer abc123`, decoded to `uid_1`, with the RPC answering `org_9`/ADMIN, yields that context after exactly the token check and one RPC. |

## Left out

- The Firebase Admin SDK's internals are not modelled: signature and expiry checking, the service-account checks inside `credential.cert`, and `app.delete`. Token verification is an uninterpreted function per app. `cert` is an uninterpreted function that either builds a credential or rejects the record with a message.
- `FirebaseAdmin.AdminSdk.InitializeApp`: the SDK's "duplicate app" error is not modelled. The method requires that no default app exists, which `onModuleInit` guarantees by calling it only on an empty registry.
- `FirebaseAdmin.AdminSdk.DefaultApp`: `admin.app()` is modelled as a lookup of `[DEFAULT]` among the registered apps. The SDK's other naming rules are not modelled.
- gRPC transport, `ClientGrpc.getService`, rxjs `lastValueFrom` and the promise plumbing are not modelled. The RPC is one uninterpreted call that yields a response or a failure. An observable that completes without a value counts as a failure.
- The generated proto types (`generated/user`) are not part of this model. The response is assumed to carry a string `email`, as the shared `UserContext` does.
- `onModuleDestroy` and all `Logger` output are not modelled: they are shutdown I/O and logging.
- `ConfigService` loading is I/O. The configuration is an input map in which an absent key reads as undefined.
- Controllers, Swagger decorators, Passport and Guard dispatch, the `CurrentUser` decorator, and the module files are framework wiring and are not modelled. Attaching the context to the request is not modelled.
- Concurrency and asynchrony are not modelled: every step is a function of the current state. There are no timeouts, no cancellation and no role-enum check, because the code implements none of them.
