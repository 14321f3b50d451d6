/** The parts of the Firebase Admin SDK the gateway touches, kept opaque: the decoded
    token it hands back, the token check as an uninterpreted function, the service-account
    credential check as another, and the module-global registry of initialised apps. */
module FirebaseAdmin {
  import opened Outcomes

  /** The claims of a verified ID token that the core can see. */
  datatype DecodedIdToken = DecodedIdToken(uid: string, email: Option<string>, issuedAt: int, expiresAt: int)

  /** Whatever the provider rejects a token with (expired, bad signature, revoked, malformed). */
  datatype ProviderFailure = ProviderFailure(code: string, message: string)

  datatype VerifyResult = Verified(decoded: DecodedIdToken) | Rejected(failure: ProviderFailure)

  /** An app's `auth()` service; signature and expiry checking are not modelled. */
  datatype Auth = Auth(verifyIdToken: string -> VerifyResult)

  /** The arguments given to `credential.cert`. */
  datatype ServiceAccount = ServiceAccount(projectId: string, clientEmail: string, privateKey: string)

  /** The credential object `credential.cert` builds; the model does not constrain its content. */
  datatype Credential = Credential(account: ServiceAccount)

  /** What `credential.cert` ends with: a credential, or the message it throws with
      (a private key it cannot parse, for one). */
  datatype CertResult = Certified(credential: Credential) | CertRejected(message: string)

  /** The options given to `initializeApp`. */
  datatype AppOptions = AppOptions(credential: Credential, projectId: Option<string>)

  datatype App = App(name: string, options: AppOptions, auth: Auth)

  /** The name `initializeApp` and `app()` use when none is given. */
  const DefaultAppName: string := "[DEFAULT]"

  /** The first app in `apps` with the given name, if any. */
  function FindApp(apps: seq<App>, name: string): (r: Option<App>)
    ensures r.None? <==> forall i :: 0 <= i < |apps| ==> apps[i].name != name
    ensures r.Some? ==> r.value.name == name && exists i :: 0 <= i < |apps| && apps[i] == r.value
  {
    if apps == [] then None
    else if apps[0].name == name then Some(apps[0])
    else FindApp(apps[1..], name)
  }

  /** The `firebase-admin` module's global registry: `admin.apps`. */
  class AdminSdk {
    var apps: seq<App>
    /** How the SDK verifies tokens for an app created with the given options. */
    const authFor: AppOptions -> Auth
    /** `admin.credential.cert`: checks a service account and builds its credential. */
    const cert: ServiceAccount -> CertResult

    constructor (authFor: AppOptions -> Auth, cert: ServiceAccount -> CertResult)
      ensures apps == [] && this.authFor == authFor && this.cert == cert
    {
      apps := [];
      this.authFor := authFor;
      this.cert := cert;
    }

    /** `admin.app()`: the default app, or the SDK's error when there is none. */
    function DefaultApp(): (r: Result<App>)
      reads this
      ensures r.Ok? <==> exists i :: 0 <= i < |apps| && apps[i].name == DefaultAppName
      ensures r.Ok? ==> r.value.name == DefaultAppName && exists i :: 0 <= i < |apps| && apps[i] == r.value
      ensures r.Err? ==> r.error == AppMissing
    {
      match FindApp(apps, DefaultAppName)
      case Some(app) => Ok(app)
      case None => Err(AppMissing)
    }

    /** `admin.initializeApp(options)`: registers and returns a new default app. */
    method InitializeApp(options: AppOptions) returns (app: App)
      requires DefaultApp().Err?
      modifies this
      ensures app == App(DefaultAppName, options, authFor(options))
      ensures apps == old(apps) + [app]
    {
      app := App(DefaultAppName, options, authFor(options));
      apps := apps + [app];
    }
  }
}
