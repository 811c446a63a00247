/** The extension's core: its default configuration and how it is merged into
    the application's, the "N unit" duration settings, the session user
    loader, and the default authentication provider. */
module Core {
  import opened Wrappers
  import opened Text
  import opened Users
  import opened Exceptions
  import opened External
  import opened Datastore

  /** A configuration value as the defaults use them. */
  datatype ConfigValue = Null | Flag(b: bool) | Text(s: string) | Names(names: seq<string>)

  /** `_default_config`, keyed without the `SECURITY_` prefix. */
  const Defaults: map<string, ConfigValue> := map[
    "URL_PREFIX" := Null,
    "FLASH_MESSAGES" := Flag(true),
    "PASSWORD_HASH" := Text("plaintext"),
    "AUTH_PROVIDER" := Text("flask.ext.security::AuthenticationProvider"),
    "LOGIN_FORM" := Text("flask.ext.security::LoginForm"),
    "REGISTER_FORM" := Text("flask.ext.security::RegisterForm"),
    "RESET_PASSWORD_FORM" := Text("flask.ext.security::ResetPasswordForm"),
    "FORGOT_PASSWORD_FORM" := Text("flask.ext.security::ForgotPasswordForm"),
    "AUTH_URL" := Text("/auth"),
    "LOGOUT_URL" := Text("/logout"),
    "REGISTER_URL" := Text("/register"),
    "FORGOT_URL" := Text("/forgot"),
    "RESET_URL" := Text("/reset"),
    "CONFIRM_URL" := Text("/confirm"),
    "LOGIN_VIEW" := Text("/login"),
    "POST_LOGIN_VIEW" := Text("/"),
    "POST_LOGOUT_VIEW" := Text("/"),
    "POST_FORGOT_VIEW" := Text("/"),
    "RESET_PASSWORD_ERROR_VIEW" := Text("/"),
    "POST_REGISTER_VIEW" := Null,
    "POST_CONFIRM_VIEW" := Null,
    "DEFAULT_ROLES" := Names([]),
    "CONFIRM_EMAIL" := Flag(false),
    "CONFIRM_EMAIL_WITHIN" := Text("5 days"),
    "RESET_PASSWORD_WITHIN" := Text("2 days"),
    "LOGIN_WITHOUT_CONFIRMATION" := Flag(false),
    "EMAIL_SENDER" := Text("no-reply@localhost"),
    "TOKEN_AUTHENTICATION_KEY" := Text("auth_token"),
    "TOKEN_AUTHENTICATION_HEADER" := Text("X-Auth-Token")
  ]

  /** The application configuration key of a default. */
  function Prefixed(key: string): string {
    "SECURITY_" + key
  }

  lemma PrefixedInjective(a: string, b: string)
    requires Prefixed(a) == Prefixed(b)
    ensures a == b
  {
    assert a == Prefixed(a)[9..];
    assert b == Prefixed(b)[9..];
  }

  /** The configuration after `defaults` were merged in: every key the
      application set keeps its value, every default is present under its
      prefixed key, and nothing else is added. */
  function WithDefaults(app: map<string, ConfigValue>, defaults: map<string, ConfigValue>): (r: map<string, ConfigValue>)
    ensures forall k | k in app :: k in r && r[k] == app[k]
    ensures forall d | d in defaults :: Prefixed(d) in r
    ensures forall d | d in defaults && Prefixed(d) !in app :: r[Prefixed(d)] == defaults[d]
    ensures forall k | k in r :: k in app || exists d | d in defaults :: k == Prefixed(d)
  {
    var added := map k | k in (set d | d in defaults :: Prefixed(d)) && k !in app :: defaults[k[9..]];
    assert forall d | d in defaults :: Prefixed(d)[9..] == d;
    app + added
  }

  /** Merging the defaults a second time changes nothing. */
  lemma WithDefaultsIdempotent(app: map<string, ConfigValue>, defaults: map<string, ConfigValue>)
    ensures WithDefaults(WithDefaults(app, defaults), defaults) == WithDefaults(app, defaults)
  {
  }

  /** `init_app`'s loop `app.config.setdefault('SECURITY_' + key, value)` over
      the defaults (`Defaults` in the extension), one key at a time; it ends
      in the merged configuration. */
  method MergeDefaults(app: map<string, ConfigValue>, defaults: map<string, ConfigValue>)
    returns (config: map<string, ConfigValue>)
    ensures config == WithDefaults(app, defaults)
  {
    config := app;
    var todo := defaults.Keys;
    while todo != {}
      invariant todo <= defaults.Keys
      invariant forall k | k in app :: k in config && config[k] == app[k]
      invariant forall d | d in defaults && d !in todo :: Prefixed(d) in config
      invariant forall d | d in defaults && d !in todo && Prefixed(d) !in app :: config[Prefixed(d)] == defaults[d]
      invariant forall k | k in config :: k in app || exists d | d in defaults && d !in todo :: k == Prefixed(d)
      invariant forall d | d in todo :: Prefixed(d) in config ==> Prefixed(d) in app
      decreases |todo|
    {
      var key :| key in todo;
      ghost var before := config;
      if Prefixed(key) !in config {
        config := config[Prefixed(key) := defaults[key]];
      }
      forall d | d in defaults && d != key
        ensures Prefixed(d) in config <==> Prefixed(d) in before
        ensures Prefixed(d) in before ==> config[Prefixed(d)] == before[Prefixed(d)]
      {
        if Prefixed(d) == Prefixed(key) {
          PrefixedInjective(d, key);
        }
      }
      todo := todo - {key};
    }
    WithDefaultsUnique(app, defaults, config);
  }

  /** The merge is determined by what it keeps, what it adds and what it
      leaves out. */
  lemma WithDefaultsUnique(app: map<string, ConfigValue>, defaults: map<string, ConfigValue>, m: map<string, ConfigValue>)
    requires forall k | k in app :: k in m && m[k] == app[k]
    requires forall d | d in defaults :: Prefixed(d) in m
    requires forall d | d in defaults && Prefixed(d) !in app :: m[Prefixed(d)] == defaults[d]
    requires forall k | k in m :: k in app || exists d | d in defaults :: k == Prefixed(d)
    ensures m == WithDefaults(app, defaults)
  {
    var w := WithDefaults(app, defaults);
    assert m.Keys == w.Keys;
    forall k | k in m ensures m[k] == w[k] {
      if k !in app {
        var d :| d in defaults && k == Prefixed(d);
      }
    }
  }

  /** The units `timedelta` accepts as keyword arguments, in microseconds. */
  function UnitMicros(unit: string): Option<int> {
    if unit == "weeks" then Some(604800000000)
    else if unit == "days" then Some(86400000000)
    else if unit == "hours" then Some(3600000000)
    else if unit == "minutes" then Some(60000000)
    else if unit == "seconds" then Some(1000000)
    else if unit == "milliseconds" then Some(1000)
    else if unit == "microseconds" then Some(1)
    else None
  }

  const MicrosPerDay: int := 86400000000
  const MaxDays: int := 999999999

  /** Whether a duration fits `timedelta`: at most 999999999 whole days either
      way, counting days by floor division as `timedelta` normalises them. */
  predicate InTimedeltaRange(micros: int) {
    -MaxDays <= micros / MicrosPerDay <= MaxDays
  }

  /** `values = text.split(); timedelta(**{values[1]: int(values[0])})`, in
      microseconds. Python 2 evaluates a dict display's value before its key,
      so the count is converted before the unit is indexed; an unknown unit is
      an unexpected keyword (`TypeError`); words after the second are ignored. */
  function ParseDuration(text: string): (r: Result<int, Exception>)
    ensures |Split(text)| < 2 ==> r.Err?
    ensures r.Err? && r.error.IndexError? ==> |Split(text)| < 2
    ensures r.Ok? ==> InTimedeltaRange(r.value)
    ensures r.Ok? ==> UnitMicros(Split(text)[1]).Some? && ParseInt(Split(text)[0]).Some?
    ensures r.Ok? ==> r.value == ParseInt(Split(text)[0]).value * UnitMicros(Split(text)[1]).value
    ensures (|Split(text)| >= 2 && ParseInt(Split(text)[0]).Some? && UnitMicros(Split(text)[1]).Some? &&
             InTimedeltaRange(ParseInt(Split(text)[0]).value * UnitMicros(Split(text)[1]).value)) ==> r.Ok?
  {
    ParseWords(Split(text))
  }

  /** The duration the words of a setting stand for. */
  function ParseWords(values: seq<string>): (r: Result<int, Exception>)
    ensures |values| < 2 ==> r.Err?
    ensures r.Err? && r.error.IndexError? ==> |values| < 2
    ensures r.Ok? ==> InTimedeltaRange(r.value)
    ensures r.Ok? ==> UnitMicros(values[1]).Some? && ParseInt(values[0]).Some?
    ensures r.Ok? ==> r.value == ParseInt(values[0]).value * UnitMicros(values[1]).value
    ensures (|values| >= 2 && ParseInt(values[0]).Some? && UnitMicros(values[1]).Some? &&
             InTimedeltaRange(ParseInt(values[0]).value * UnitMicros(values[1]).value)) ==> r.Ok?
    ensures |values| > 0 && ParseInt(values[0]).None? ==> r.Err? && r.error.ValueError?
    ensures |values| >= 2 && ParseInt(values[0]).Some? && UnitMicros(values[1]).None? ==>
      r.Err? && r.error.TypeError?
    ensures |values| >= 2 && ParseInt(values[0]).Some? && UnitMicros(values[1]).Some? &&
            !InTimedeltaRange(ParseInt(values[0]).value * UnitMicros(values[1]).value) ==>
      r.Err? && r.error.OverflowError?
  {
    if |values| == 0 then Err(IndexError("list index out of range"))
    else
      match ParseInt(values[0])
      case None => Err(ValueError("invalid literal for int() with base 10: '" + values[0] + "'"))
      case Some(n) =>
        if |values| < 2 then Err(IndexError("list index out of range"))
        else
          match UnitMicros(values[1])
          case None => Err(TypeError("'" + values[1] + "' is an invalid keyword argument for this function"))
          case Some(f) =>
            if InTimedeltaRange(n * f) then Ok(n * f)
            else Err(OverflowError("days must have magnitude <= 999999999"))
  }

  /** Writing a count and a unit and parsing the text gives the count in that
      unit back, whatever words follow. */
  lemma ParseDurationRoundTrip(n: int, unit: string, rest: seq<string>)
    requires UnitMicros(unit).Some? && InTimedeltaRange(n * UnitMicros(unit).value)
    requires forall i | 0 <= i < |rest| :: IsWord(rest[i])
    ensures ParseDuration(JoinWords([ShowInt(n), unit] + rest)) == Ok(n * UnitMicros(unit).value)
  {
    var ws := [ShowInt(n), unit] + rest;
    CountAndUnitAreWords(n, unit, rest);
    SplitJoin(ws);
    ParseDurationOfWords(JoinWords(ws), ws);
    ParseWordsCount(n, unit, rest);
  }

  lemma CountAndUnitAreWords(n: int, unit: string, rest: seq<string>)
    requires UnitMicros(unit).Some?
    requires forall i | 0 <= i < |rest| :: IsWord(rest[i])
    ensures forall i | 0 <= i < |[ShowInt(n), unit] + rest| :: IsWord(([ShowInt(n), unit] + rest)[i])
  {
    var ws := [ShowInt(n), unit] + rest;
    UnitIsWord(unit);
    forall i | 0 <= i < |ws| ensures IsWord(ws[i]) {
      if i >= 2 { assert ws[i] == rest[i - 2]; }
    }
  }

  lemma ParseWordsCount(n: int, unit: string, rest: seq<string>)
    requires UnitMicros(unit).Some? && InTimedeltaRange(n * UnitMicros(unit).value)
    ensures ParseWords([ShowInt(n), unit] + rest) == Ok(n * UnitMicros(unit).value)
  {
    ParseShowInt(n);
  }

  lemma UnitIsWord(unit: string)
    requires UnitMicros(unit).Some?
    ensures IsWord(unit)
  {
  }

  /** A lone number is reported as a missing unit only once the number parsed:
      a malformed count is a `ValueError` even when the unit is missing too. */
  lemma ParseDurationCountFirst(word: string)
    requires IsWord(word) && ParseInt(word).None?
    ensures ParseDuration(word).Err? && ParseDuration(word).error.ValueError?
  {
    SplitOneWord(word);
    ParseDurationOfWords(word, [word]);
    ParseWordsCountFirst([word]);
  }

  lemma ParseDurationOfWords(text: string, values: seq<string>)
    requires Split(text) == values
    ensures ParseDuration(text) == ParseWords(values)
  {
  }

  lemma ParseWordsCountFirst(values: seq<string>)
    requires |values| > 0 && ParseInt(values[0]).None?
    ensures ParseWords(values).Err? && ParseWords(values).error.ValueError?
  {
  }

  /** The shipped defaults: confirmation links last five days, reset links two. */
  lemma DefaultWindows()
    ensures ParseDuration("5 days") == Ok(5 * MicrosPerDay)
    ensures ParseDuration("2 days") == Ok(2 * MicrosPerDay)
  {
    assert ShowInt(5) == "5";
    assert ShowInt(2) == "2";
    ParseDurationRoundTrip(5, "days", []);
    assert [ShowInt(5), "days"] + [] == ["5", "days"];
    assert JoinWords(["5", "days"]) == "5 days";
    ParseDurationRoundTrip(2, "days", []);
    assert [ShowInt(2), "days"] + [] == ["2", "days"];
    assert JoinWords(["2", "days"]) == "2 days";
  }

  lemma DefaultWindowTexts()
    ensures "CONFIRM_EMAIL_WITHIN" in Defaults && Defaults["CONFIRM_EMAIL_WITHIN"] == Text("5 days")
    ensures "RESET_PASSWORD_WITHIN" in Defaults && Defaults["RESET_PASSWORD_WITHIN"] == Text("2 days")
  {
  }

  /** `load_user(user_id)`: the user with that id, and `None` instead of any
      datastore error. */
  function LoadUser(s: Store, id: nat): (r: Option<User>)
    ensures r.Some? ==> r.value in s.users && r.value.id == id
    ensures r.None? <==> forall u | u in s.users :: u.id != id
  {
    match WithId(s, id)
    case Ok(u) => Some(u)
    case Err(_) => None
  }

  /** A saved user is what the session loader brings back for its id. */
  lemma LoadUserAfterSave(s: Store, u: User)
    requires WellFormed(s)
    ensures LoadUser(Save(s, u), u.id) == Some(u)
  {
    SaveThenLoad(s, u);
  }

  /** `AuthenticationProvider.do_authenticate`: a missing user, an account that
      still needs confirming, then a wrong password, each a `BadCredentialsError`
      with its own message; otherwise the stored user. */
  function DoAuthenticate(s: Store, email: string, password: string, ext: Capabilities): (r: Result<User, Exception>)
    ensures r.Ok? <==>
      && GetUser(s, email).Some?
      && !ext.requiresConfirmation(GetUser(s, email).value)
      && ext.verify(password, GetUser(s, email).value.password)
    ensures r.Ok? ==> r.value == GetUser(s, email).value
    ensures r.Err? ==> r.error.BadCredentialsError?
    ensures GetUser(s, email).None? ==> r == Err(BadCredentialsError("Specified user does not exist"))
    ensures GetUser(s, email).Some? && ext.requiresConfirmation(GetUser(s, email).value) ==>
      r == Err(BadCredentialsError("Account requires confirmation"))
    ensures GetUser(s, email).Some? && !ext.requiresConfirmation(GetUser(s, email).value) &&
            !ext.verify(password, GetUser(s, email).value.password) ==>
      r == Err(BadCredentialsError("Password does not match"))
  {
    match FindUser(s, ByEmail(Some(email)))
    case Err(_) => Err(BadCredentialsError("Specified user does not exist"))
    case Ok(user) =>
      if ext.requiresConfirmation(user) then Err(BadCredentialsError("Account requires confirmation"))
      else if ext.verify(password, user.password) then Ok(user)
      else Err(BadCredentialsError("Password does not match"))
  }

  /** The confirmation check comes before the password check, so for an
      account awaiting confirmation the answer is the same for every password. */
  lemma ConfirmationHidesPassword(s: Store, email: string, p1: string, p2: string, ext: Capabilities)
    requires GetUser(s, email).Some? && ext.requiresConfirmation(GetUser(s, email).value)
    ensures DoAuthenticate(s, email, p1, ext) == DoAuthenticate(s, email, p2, ext)
  {
  }

  /** The core login form as `authenticate` receives it: the two `Required`
      fields and the form's CSRF check. */
  datatype CoreLoginForm = CoreLoginForm(email: string, password: string, csrfError: Option<string>)

  /** `Required` rejects empty and whitespace-only text. */
  predicate FormValid(f: CoreLoginForm) {
    !IsBlank(f.email) && !IsBlank(f.password) && f.csrfError.None?
  }

  /** `AuthenticationProvider.authenticate` as written: an invalid form raises
      the e-mail error, else the password error, else nothing, and falls
      through to `do_authenticate`. */
  function Authenticate(s: Store, f: CoreLoginForm, ext: Capabilities): (r: Result<User, Exception>)
    ensures IsBlank(f.email) ==> r == Err(BadCredentialsError("Email not provided"))
    ensures !IsBlank(f.email) && IsBlank(f.password) ==> r == Err(BadCredentialsError("Password not provided"))
    ensures !IsBlank(f.email) && !IsBlank(f.password) ==> r == DoAuthenticate(s, f.email, f.password, ext)
  {
    if !FormValid(f) && IsBlank(f.email) then Err(BadCredentialsError("Email not provided"))
    else if !FormValid(f) && IsBlank(f.password) then Err(BadCredentialsError("Password not provided"))
    else DoAuthenticate(s, f.email, f.password, ext)
  }

  /** A form whose only error is the CSRF one still authenticates. */
  lemma AuthenticateIgnoresCsrf()
    ensures
      var u := User(1, "a@example.com", "hash", true, [], None, None, None, None);
      var s := Store([u], [], 2);
      var ext := Capabilities((p: string, h: string) => true, (p: string) => p, (p: string) => false,
                              (e: string) => true, (x: User) => false, (x: User) => "");
      var f := CoreLoginForm("a@example.com", "secret", Some("CSRF token missing"));
      !FormValid(f) && Authenticate(s, f, ext) == Ok(u)
  {
    var u := User(1, "a@example.com", "hash", true, [], None, None, None, None);
    var s := Store([u], [], 2);
    assert UserIndex(s.users, ByEmail(Some("a@example.com"))) == Some(0);
    assert !IsBlank("a@example.com") by { assert !IsSpace("a@example.com"[0]); }
    assert !IsBlank("secret") by { assert !IsSpace("secret"[0]); }
  }

  /** `authenticate` with every form error reported: an invalid form never
      reaches the credential check. */
  function AuthenticateChecked(s: Store, f: CoreLoginForm, ext: Capabilities): (r: Result<User, Exception>)
    ensures r.Ok? ==> FormValid(f) && r == DoAuthenticate(s, f.email, f.password, ext)
    ensures FormValid(f) ==> r == DoAuthenticate(s, f.email, f.password, ext)
    ensures !FormValid(f) ==> r.Err? && r.error.BadCredentialsError?
  {
    if IsBlank(f.email) then Err(BadCredentialsError("Email not provided"))
    else if IsBlank(f.password) then Err(BadCredentialsError("Password not provided"))
    else if f.csrfError.Some? then Err(BadCredentialsError(f.csrfError.value))
    else DoAuthenticate(s, f.email, f.password, ext)
  }

  /** The corrected provider agrees with the original on every form that
      validates or that has a blank field. */
  lemma AuthenticateCheckedAgrees(s: Store, f: CoreLoginForm, ext: Capabilities)
    requires FormValid(f) || IsBlank(f.email) || IsBlank(f.password)
    ensures AuthenticateChecked(s, f, ext) == Authenticate(s, f, ext)
  {
  }
}
