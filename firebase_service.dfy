/** The gateway's Firebase service: reading the service-account credential from the
    configuration, and initialising the Admin SDK once per process. */
module Firebase {
  import opened Outcomes
  import opened FirebaseAdmin

  const PrivateKeyVar: string := "FIREBASE_PRIVATE_KEY"
  const ClientEmailVar: string := "FIREBASE_CLIENT_EMAIL"
  const ProjectIdVar: string := "FIREBASE_PROJECT_ID"

  const CredentialsMessage: string :=
    "Firebase credentials not fully configured. "
    + "Required: FIREBASE_PRIVATE_KEY, FIREBASE_CLIENT_EMAIL, FIREBASE_PROJECT_ID"

  /** The configuration as `ConfigService.get` sees it: a key that is absent reads as undefined. */
  type Config = map<string, string>

  /** `configService.get(key)`. */
  function Lookup(config: Config, key: string): (r: Option<string>)
    ensures r.Some? <==> key in config
    ensures r.Some? ==> r.value == config[key]
  {
    if key in config then Some(config[key]) else None
  }

  /** True when `configService.get(key)` is truthy: of the strings `get` can yield,
      only undefined and the empty string are falsy. */
  predicate Configured(config: Config, key: string)
    ensures Configured(config, key) <==> Lookup(config, key) != None && Lookup(config, key) != Some("")
  {
    key in config && config[key] != ""
  }

  // ---------------------------------------------------------------------------
  // The private-key rewrite `replace(/\\n/g, '\n')`
  // ---------------------------------------------------------------------------

  /** True when a backslash is immediately followed by `n` somewhere in `s`. */
  predicate HasEscape(s: string)
  {
    exists i :: 0 <= i < |s| - 1 && s[i] == '\\' && s[i + 1] == 'n'
  }

  /** Number of positions in `s` where a backslash is followed by `n`. */
  function EscapeCount(s: string): nat
  {
    if |s| < 2 then 0
    else (if s[0] == '\\' && s[1] == 'n' then 1 else 0) + EscapeCount(s[1..])
  }

  /** The global regex replacement: every backslash-`n` pair, scanned left to right,
      becomes one newline; every other character is kept. */
  function UnescapeNewlines(s: string): (r: string)
    ensures |r| <= |s|
    ensures forall i :: 0 <= i < |r| ==> r[i] in s || r[i] == '\n'
  {
    if |s| >= 2 && s[0] == '\\' && s[1] == 'n' then "\n" + UnescapeNewlines(s[2..])
    else if s == [] then []
    else [s[0]] + UnescapeNewlines(s[1..])
  }

  /** How a key with real newlines is written on one line in an environment file. */
  function EscapeNewlines(s: string): string
  {
    if s == [] then []
    else if s[0] == '\n' then "\\n" + EscapeNewlines(s[1..])
    else [s[0]] + EscapeNewlines(s[1..])
  }

  /** The rewrite starts with `n` exactly when its input does. */
  lemma UnescapeHead(s: string)
    requires s != []
    ensures UnescapeNewlines(s) != []
    ensures UnescapeNewlines(s)[0] == 'n' <==> s[0] == 'n'
  {
  }

  /** Each pair shortens the key by one character, and nothing else changes the length. */
  lemma {:induction false} UnescapeLength(s: string)
    ensures |UnescapeNewlines(s)| == |s| - EscapeCount(s)
    decreases |s|
  {
    if |s| >= 2 && s[0] == '\\' && s[1] == 'n' {
      UnescapeLength(s[2..]);
      assert s[1..][1..] == s[2..];
      assert EscapeCount(s[1..]) == EscapeCount(s[2..]);
    } else if s != [] {
      UnescapeLength(s[1..]);
    }
  }

  /** After the rewrite no backslash is followed by `n`. */
  lemma {:induction false} UnescapeLeavesNoEscape(s: string)
    ensures !HasEscape(UnescapeNewlines(s))
    decreases |s|
  {
    var r := UnescapeNewlines(s);
    if |s| >= 2 && s[0] == '\\' && s[1] == 'n' {
      var t := UnescapeNewlines(s[2..]);
      UnescapeLeavesNoEscape(s[2..]);
      assert r == "\n" + t;
      forall i | 0 <= i < |r| - 1
        ensures !(r[i] == '\\' && r[i + 1] == 'n')
      {
        if i > 0 {
          assert r[i] == t[i - 1] && r[i + 1] == t[i];
        }
      }
    } else if s != [] {
      var t := UnescapeNewlines(s[1..]);
      UnescapeLeavesNoEscape(s[1..]);
      assert r == [s[0]] + t;
      forall i | 0 <= i < |r| - 1
        ensures !(r[i] == '\\' && r[i + 1] == 'n')
      {
        if i > 0 {
          assert r[i] == t[i - 1] && r[i + 1] == t[i];
        } else if s[0] == '\\' {
          UnescapeHead(s[1..]);
        }
      }
    }
  }

  /** A string without pairs is left as it is. */
  lemma {:induction false} UnescapeWithoutEscape(s: string)
    requires !HasEscape(s)
    ensures UnescapeNewlines(s) == s
    decreases |s|
  {
    if s != [] {
      assert !(|s| >= 2 && s[0] == '\\' && s[1] == 'n');
      var tail := s[1..];
      assert !HasEscape(tail) by {
        forall i | 0 <= i < |tail| - 1 ensures !(tail[i] == '\\' && tail[i + 1] == 'n') {
          assert tail[i] == s[i + 1] && tail[i + 1] == s[i + 2];
        }
      }
      UnescapeWithoutEscape(tail);
    }
  }

  /** Applying the rewrite a second time changes nothing. */
  lemma UnescapeIdempotent(s: string)
    ensures UnescapeNewlines(UnescapeNewlines(s)) == UnescapeNewlines(s)
  {
    UnescapeLeavesNoEscape(s);
    UnescapeWithoutEscape(UnescapeNewlines(s));
  }

  /** The escaped form starts with a backslash for a newline and with the character itself otherwise. */
  lemma EscapeHead(s: string)
    requires s != []
    ensures EscapeNewlines(s) != []
    ensures EscapeNewlines(s)[0] == if s[0] == '\n' then '\\' else s[0]
  {
  }

  /** A key whose newlines were written as backslash-`n` is restored by the rewrite,
      provided the key itself holds no backslash-`n` pair. */
  lemma {:induction false} UnescapeEscape(s: string)
    requires !HasEscape(s)
    ensures UnescapeNewlines(EscapeNewlines(s)) == s
    decreases |s|
  {
    if s != [] {
      var tail := s[1..];
      assert !HasEscape(tail) by {
        forall i | 0 <= i < |tail| - 1 ensures !(tail[i] == '\\' && tail[i + 1] == 'n') {
          assert tail[i] == s[i + 1] && tail[i + 1] == s[i + 2];
        }
      }
      UnescapeEscape(tail);
      var e := EscapeNewlines(tail);
      if s[0] == '\n' {
        assert EscapeNewlines(s) == "\\n" + e;
        assert ("\\n" + e)[2..] == e;
      } else {
        assert EscapeNewlines(s) == [s[0]] + e;
        if s[0] == '\\' && tail != [] {
          EscapeHead(tail);
          assert s[1] != 'n';
        }
        assert ([s[0]] + e)[1..] == e;
      }
    }
  }

  /** The other direction: for a key without real newlines, escaping the rewrite gives the
      key back, so every character that is not part of a pair is kept, in order. */
  lemma {:induction false} EscapeUnescape(s: string)
    requires '\n' !in s
    ensures EscapeNewlines(UnescapeNewlines(s)) == s
    decreases |s|
  {
    if |s| >= 2 && s[0] == '\\' && s[1] == 'n' {
      assert '\n' !in s[2..];
      EscapeUnescape(s[2..]);
      assert s == "\\n" + s[2..];
    } else if s != [] {
      assert '\n' !in s[1..];
      EscapeUnescape(s[1..]);
      assert s == [s[0]] + s[1..];
    }
  }

  /** The rewrite on its two kinds of unit: a pair becomes one newline, and any single
      character stays as it is. */
  lemma UnescapeUnits(c: char)
    ensures UnescapeNewlines("\\n") == "\n"
    ensures UnescapeNewlines([c]) == [c]
  {
  }

  /** Concatenation regroups freely. */
  lemma Associative(p: string, x: string, y: string)
    ensures p + (x + y) == (p + x) + y
  {
  }

  /** A leading pair becomes a newline in front of the rewritten rest. */
  lemma UnescapePairStep(t: string)
    ensures UnescapeNewlines("\\n" + t) == "\n" + UnescapeNewlines(t)
  {
    assert ("\\n" + t)[2..] == t;
  }

  /** A leading character that does not start a pair is kept in front of the rewritten rest. */
  lemma UnescapeCharStep(c: char, t: string)
    requires !(c == '\\' && t != [] && t[0] == 'n')
    ensures UnescapeNewlines([c] + t) == [c] + UnescapeNewlines(t)
  {
    assert ([c] + t)[1..] == t;
  }

  /** `UnescapePairStep` on a key made of a pair, a tail and a second piece. */
  lemma UnescapePairAppendStep(tail: string, b: string)
    ensures UnescapeNewlines("\\n" + tail + b) == "\n" + UnescapeNewlines(tail + b)
  {
    assert "\\n" + tail + b == "\\n" + (tail + b);
    UnescapePairStep(tail + b);
  }

  /** `UnescapeCharStep` on a key made of a character, a tail and a second piece; the
      character starts no pair with the tail, nor with the second piece when the tail is empty. */
  lemma UnescapeCharAppendStep(c: char, tail: string, b: string)
    requires !(c == '\\' && tail != [] && tail[0] == 'n')
    requires !(c == '\\' && tail == [] && b != [] && b[0] == 'n')
    ensures UnescapeNewlines([c] + tail + b) == [c] + UnescapeNewlines(tail + b)
  {
    assert [c] + tail + b == [c] + (tail + b);
    if tail == [] {
      assert tail + b == b;
    } else {
      assert (tail + b)[0] == tail[0];
    }
    UnescapeCharStep(c, tail + b);
  }

  /** The inductive step of `UnescapeAppend` for a key that starts with a pair. */
  lemma UnescapeAppendPair(tail: string, b: string)
    requires UnescapeNewlines(tail + b) == UnescapeNewlines(tail) + UnescapeNewlines(b)
    ensures UnescapeNewlines("\\n" + tail + b) == UnescapeNewlines("\\n" + tail) + UnescapeNewlines(b)
  {
    UnescapePairAppendStep(tail, b);
    UnescapePairStep(tail);
    Associative("\n", UnescapeNewlines(tail), UnescapeNewlines(b));
  }

  /** The inductive step of `UnescapeAppend` for a key whose first character starts no pair. */
  lemma UnescapeAppendChar(c: char, tail: string, b: string)
    requires !(c == '\\' && tail != [] && tail[0] == 'n')
    requires !(c == '\\' && tail == [] && b != [] && b[0] == 'n')
    requires UnescapeNewlines(tail + b) == UnescapeNewlines(tail) + UnescapeNewlines(b)
    ensures UnescapeNewlines([c] + tail + b) == UnescapeNewlines([c] + tail) + UnescapeNewlines(b)
  {
    UnescapeCharAppendStep(c, tail, b);
    UnescapeCharStep(c, tail);
    Associative([c], UnescapeNewlines(tail), UnescapeNewlines(b));
  }

  /** The rewrite works piece by piece: the key can be cut anywhere that does not cut a pair
      in two, and each piece rewritten on its own. With `UnescapeUnits` this fixes the result
      on every key: each pair becomes a newline in its place and every other character is kept,
      in order. */
  lemma {:induction false} UnescapeAppend(a: string, b: string)
    requires !(a != [] && a[|a| - 1] == '\\' && b != [] && b[0] == 'n')
    ensures UnescapeNewlines(a + b) == UnescapeNewlines(a) + UnescapeNewlines(b)
    decreases |a|
  {
    if a == [] {
      assert a + b == b;
    } else if |a| >= 2 && a[0] == '\\' && a[1] == 'n' {
      var tail := a[2..];
      assert a == "\\n" + tail;
      UnescapeAppend(tail, b);
      UnescapeAppendPair(tail, b);
    } else {
      var tail := a[1..];
      assert a == [a[0]] + tail;
      UnescapeAppend(tail, b);
      UnescapeAppendChar(a[0], tail, b);
    }
  }

  // ---------------------------------------------------------------------------
  // getCredential
  // ---------------------------------------------------------------------------

  /** True when all three settings `getCredential` needs are truthy. */
  predicate FullyConfigured(config: Config)
  {
    Configured(config, PrivateKeyVar) && Configured(config, ClientEmailVar) && Configured(config, ProjectIdVar)
  }

  /** The presence check and the record handed to `credential.cert`: all three settings
      must be present and non-empty; the project id and client email pass through, and the
      private key has its escaped newlines restored. */
  function ServiceAccountFor(config: Config): (r: Result<ServiceAccount>)
    ensures r.Ok? <==> FullyConfigured(config)
    ensures r.Err? ==> r.error == ConfigurationError(CredentialsMessage)
    ensures r.Ok? ==> r.value.projectId == config[ProjectIdVar] && r.value.clientEmail == config[ClientEmailVar]
    ensures r.Ok? ==> r.value.privateKey == UnescapeNewlines(config[PrivateKeyVar])
    ensures r.Ok? ==> !HasEscape(r.value.privateKey)
    ensures r.Ok? ==> |r.value.privateKey| == |config[PrivateKeyVar]| - EscapeCount(config[PrivateKeyVar])
  {
    var privateKey := Lookup(config, PrivateKeyVar);
    var clientEmail := Lookup(config, ClientEmailVar);
    var projectId := Lookup(config, ProjectIdVar);
    if privateKey.None? || privateKey.value == "" || clientEmail.None? || clientEmail.value == ""
      || projectId.None? || projectId.value == ""
    then Err(ConfigurationError(CredentialsMessage))
    else
      UnescapeLeavesNoEscape(privateKey.value);
      UnescapeLength(privateKey.value);
      Ok(ServiceAccount(projectId.value, clientEmail.value, UnescapeNewlines(privateKey.value)))
  }

  /** `getCredential`: the configuration error exactly when a setting is missing or empty;
      otherwise `cert`'s verdict on the rewritten record, its rejection passed on unchanged. */
  function GetCredential(config: Config, cert: ServiceAccount -> CertResult): (r: Result<Credential>)
    ensures r == Err(ConfigurationError(CredentialsMessage)) <==> !FullyConfigured(config)
    ensures FullyConfigured(config) ==>
      var account := ServiceAccount(config[ProjectIdVar], config[ClientEmailVar],
                                    UnescapeNewlines(config[PrivateKeyVar]));
      match cert(account)
      case Certified(credential) => r == Ok(credential)
      case CertRejected(message) => r == Err(CredentialRejected(message))
  {
    match ServiceAccountFor(config)
    case Err(e) => Err(e)
    case Ok(account) =>
      match cert(account)
      case Certified(credential) => Ok(credential)
      case CertRejected(message) => Err(CredentialRejected(message))
  }

  // ---------------------------------------------------------------------------
  // The service object
  // ---------------------------------------------------------------------------

  class FirebaseService {
    const config: Config
    /** `this.app`: undefined until `onModuleInit` sets it. */
    var app: Option<App>

    constructor (config: Config)
      ensures this.config == config && app == None
    {
      this.config := config;
      app := None;
    }

    /** The `auth` getter: reading `auth()` of an undefined app throws a TypeError. */
    function CurrentAuth(): (r: Result<Auth>)
      reads this
      ensures r.Ok? <==> app.Some?
      ensures r.Ok? ==> r.value == app.value.auth
      ensures r.Err? ==> r.error == UndefinedProperty("auth")
    {
      match app
      case Some(a) => Ok(a.auth)
      case None => Err(UndefinedProperty("auth"))
    }

    /** `onModuleInit`: with no app registered yet, build the credential (either check may
        throw) and initialise the default app with it; otherwise reuse the registered default app and leave the
        configuration unread. A thrown error leaves `app` and the registry as they were. */
    method OnModuleInit(sdk: AdminSdk) returns (r: Result<()>)
      modifies this, sdk
      ensures |old(sdk.apps)| == 0 && GetCredential(config, sdk.cert).Err? ==>
        r == Err(GetCredential(config, sdk.cert).error) && app == old(app) && sdk.apps == old(sdk.apps)
      ensures |old(sdk.apps)| == 0 && GetCredential(config, sdk.cert).Ok? ==>
        var options := AppOptions(GetCredential(config, sdk.cert).value, Lookup(config, ProjectIdVar));
        var created := App(DefaultAppName, options, sdk.authFor(options));
        r == Ok(()) && app == Some(created) && sdk.apps == [created]
      ensures |old(sdk.apps)| > 0 ==>
        sdk.apps == old(sdk.apps) &&
        (old(sdk.DefaultApp()).Ok? ==> r == Ok(()) && app == Some(old(sdk.DefaultApp()).value)) &&
        (old(sdk.DefaultApp()).Err? ==> r == Err(AppMissing) && app == old(app))
    {
      if |sdk.apps| == 0 {
        var credential := GetCredential(config, sdk.cert);
        if credential.Err? {
          r := Err(credential.error);
          return;
        }
        var created := sdk.InitializeApp(AppOptions(credential.value, Lookup(config, ProjectIdVar)));
        app := Some(created);
        r := Ok(());
      } else {
        var existing := sdk.DefaultApp();
        if existing.Ok? {
          app := Some(existing.value);
          r := Ok(());
        } else {
          r := Err(existing.error);
        }
      }
    }
  }
}
