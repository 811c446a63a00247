/** The decision logic of the security views: which response a request gets,
    what happens to the session, whether the request's database work is
    committed, which messages are flashed and which mail goes out. The
    token-status helpers, mail sending and `login_user`/`logout_user` are
    outside the model; their results or requests appear as data. */
module Views {
  import opened Wrappers
  import opened Text
  import opened Users
  import opened Exceptions
  import opened External
  import opened Messages
  import opened Forms

  /** `(expired, invalid, user)` as a `*_token_status(token)` helper returns it. */
  datatype TokenStatus = TokenStatus(expired: bool, invalid: bool, user: Option<User>)

  /** The JSON body `_render_json` sends. */
  datatype JsonBody =
    | ErrorsBody(errors: seq<FieldError>)
    | UserBody(id: string, authenticationToken: Option<string>)

  datatype Response =
    | Redirect(location: string)
    | RenderTemplate
    | Json(code: int, body: JsonBody)

  /** What the view does to the session: nothing, `login_user(u)`,
      `logout_user()` then `login_user(u)`, or `logout_user()`. */
  datatype SessionChange = Unchanged | LogIn(user: User) | Switch(user: User) | LogOut

  /** Work handed to code outside the model. */
  datatype Effect =
    | SendLoginInstructions(user: User)
    | SendConfirmationInstructions(user: User)
    | SaveUser(user: User)
    | UpdatePassword(user: User, password: string)
    | RegisterUser(email: string, password: string)

  /** Everything a view decides. `commit` is `after_this_request(_commit)`. */
  datatype ViewResult = ViewResult(
    response: Response,
    session: SessionChange,
    commit: bool,
    flashes: seq<MessageKey>,
    effects: seq<Effect>)

  /** The URLs the views redirect to. `get_url` of an unset view gives the
      empty string, which `or` skips. */
  datatype Urls = Urls(
    login: string,
    forgotPassword: string,
    sendConfirmation: string,
    postLogin: string,
    postLogout: string,
    postRegister: string,
    postConfirm: string,
    postReset: string,
    confirmError: string)

  /** Python's `a or b` on two URLs. */
  function Or(a: string, b: string): (r: string)
    ensures a != "" ==> r == a
    ensures a == "" ==> r == b
  {
    if a != "" then a else b
  }

  /** A result that leaves the session, the database and the mail alone. */
  predicate Quiet(v: ViewResult) {
    v.session == Unchanged && !v.commit && v.effects == []
  }

  /** Reading attribute `name` of a missing user. */
  function Missing(name: string): Exception {
    AttributeError("'NoneType' object has no attribute '" + name + "'")
  }

  /** Reading `user.email` on a missing user. */
  const NoEmail: Exception := Missing("email")

  /** Reading attribute `name` that the form class `className` does not declare. */
  function NoFormAttribute(className: string, name: string): Exception {
    AttributeError("'" + className + "' object has no attribute '" + name + "'")
  }

  /** What the helpers outside the model do when a view hands them no user:
      the exception each raises, or `None` when it returns normally and the
      view goes on to its own next use of the user. `login_user` of no user
      is taken to raise. */
  datatype NoneFaults = NoneFaults(
    sendLoginInstructions: Option<Exception>,
    sendConfirmationInstructions: Option<Exception>,
    updatePassword: Option<Exception>,
    loginUser: Exception)

  /** The exception that escapes a helper call on no user followed by the
      view's own failing step `next`: the helper's, if it raises one. */
  function FirstFault(helper: Option<Exception>, next: Exception): (r: Exception)
    ensures helper.Some? ==> r == helper.value
    ensures helper.None? ==> r == next
  {
    helper.GetOr(next)
  }

  // ---- token_login ----

  /** `token_login(token)`: an invalid token flashes `INVALID_LOGIN_TOKEN`; an
      expired one re-sends the login instructions to its user and flashes
      `LOGIN_EXPIRED`; either way the answer is a redirect to the login view.
      Otherwise the token's user is logged in and the request committed. A
      status naming no user fails in the first step that uses the user. */
  function TokenLogin(t: TokenStatus, faults: NoneFaults, urls: Urls): (r: Result<ViewResult, Exception>)
    ensures r.Err? <==> t.user.None? && (t.expired || !t.invalid)
    ensures r.Err? && t.expired ==> r.error == FirstFault(faults.sendLoginInstructions, NoEmail)
    ensures r.Err? && !t.expired ==> r.error == faults.loginUser
    ensures r.Ok? ==> (r.value.session != Unchanged <==> !t.invalid && !t.expired)
    ensures r.Ok? ==> (r.value.commit <==> !t.invalid && !t.expired)
    ensures r.Ok? && (t.invalid || t.expired) ==>
      r.value.response == Redirect(urls.login) && r.value.session == Unchanged && !r.value.commit
    ensures r.Ok? ==> (InvalidLoginToken in r.value.flashes <==> t.invalid)
    ensures r.Ok? && t.invalid ==> |r.value.flashes| > 0 && r.value.flashes[0] == InvalidLoginToken
    ensures r.Ok? && t.expired ==>
      r.value.effects == [SendLoginInstructions(t.user.value)] && LoginExpired in r.value.flashes
    ensures r.Ok? && !t.invalid && !t.expired ==>
      && r.value.session == LogIn(t.user.value)
      && r.value.flashes == [PasswordlessLoginSuccessful]
      && r.value.response == Redirect(urls.postLogin)
  {
    var flashes := if t.invalid then [InvalidLoginToken] else [];
    if t.expired then
      match t.user
      case None => Err(FirstFault(faults.sendLoginInstructions, NoEmail))
      case Some(u) =>
        Ok(ViewResult(Redirect(urls.login), Unchanged, false, flashes + [LoginExpired], [SendLoginInstructions(u)]))
    else if t.invalid then
      Ok(ViewResult(Redirect(urls.login), Unchanged, false, flashes, []))
    else
      match t.user
      case None => Err(faults.loginUser)
      case Some(u) =>
        Ok(ViewResult(Redirect(urls.postLogin), LogIn(u), true, [PasswordlessLoginSuccessful], []))
  }

  /** Whatever makes a login token unusable, the request changes nothing
      but the mail to the expired token's user, and lands on the login view. */
  lemma TokenLoginFailureChangesNothing(t: TokenStatus, faults: NoneFaults, urls: Urls)
    requires t.invalid || t.expired
    requires TokenLogin(t, faults, urls).Ok?
    ensures TokenLogin(t, faults, urls).value.session == Unchanged && !TokenLogin(t, faults, urls).value.commit
    ensures !t.expired ==> Quiet(TokenLogin(t, faults, urls).value)
    ensures TokenLogin(t, faults, urls).value.response == Redirect(urls.login)
  {
  }

  // ---- confirm_email ----

  /** `confirm_email(token)`: a token without a user counts as invalid. An
      invalid token flashes `INVALID_CONFIRMATION_TOKEN`; an expired one
      re-sends the instructions and flashes `CONFIRMATION_EXPIRED`; either way
      the answer is a redirect to `confirm_error_view`, or to the
      send-confirmation view when that is unset. Otherwise the session is
      switched to the token's user unless they are the current user; a user
      not yet confirmed is confirmed at `now` and the request committed,
      flashing `EMAIL_CONFIRMED`, and an already-confirmed user only gets
      `ALREADY_CONFIRMED`. An expired status naming no user fails in the
      mail helper or at `user.email`. */
  function ConfirmEmail(t: TokenStatus, current: CurrentUser, now: int, faults: NoneFaults, urls: Urls)
    : (r: Result<ViewResult, Exception>)
    ensures r.Err? <==> t.expired && t.user.None?
    ensures r.Err? ==> r.error == FirstFault(faults.sendConfirmationInstructions, NoEmail)
    ensures r.Ok? && (t.invalid || t.expired || t.user.None?) ==>
      && r.value.response == Redirect(Or(urls.confirmError, urls.sendConfirmation))
      && r.value.session == Unchanged && !r.value.commit
      && (forall e | e in r.value.effects :: e.SendConfirmationInstructions?)
    ensures r.Ok? ==> (InvalidConfirmationToken in r.value.flashes <==> t.invalid || t.user.None?)
    ensures r.Ok? && t.expired ==>
      r.value.effects == [SendConfirmationInstructions(t.user.value)] && ConfirmationExpired in r.value.flashes
    ensures r.Ok? && !t.invalid && !t.expired && t.user.Some? ==>
      var u := t.user.value;
      && r.value.response == Redirect(Or(urls.postConfirm, urls.postLogin))
      && (r.value.session == Unchanged <==> IsCurrent(u, current))
      && (r.value.session != Unchanged ==> r.value.session == Switch(u))
      && (r.value.commit <==> u.confirmedAt.None?)
      && r.value.flashes == [if u.confirmedAt.None? then EmailConfirmed else AlreadyConfirmed]
      && (u.confirmedAt.None? ==> r.value.effects == [SaveUser(u.(confirmedAt := Some(now)))])
      && (u.confirmedAt.Some? ==> r.value.effects == [])
  {
    var invalid := t.user.None? || t.invalid;
    var flashes := if invalid then [InvalidConfirmationToken] else [];
    var errorView := Redirect(Or(urls.confirmError, urls.sendConfirmation));
    if t.expired then
      match t.user
      case None => Err(FirstFault(faults.sendConfirmationInstructions, NoEmail))
      case Some(u) =>
        Ok(ViewResult(errorView, Unchanged, false, flashes + [ConfirmationExpired], [SendConfirmationInstructions(u)]))
    else if invalid then
      Ok(ViewResult(errorView, Unchanged, false, flashes, []))
    else
      var u := t.user.value;
      var session := if IsCurrent(u, current) then Unchanged else Switch(u);
      var landing := Redirect(Or(urls.postConfirm, urls.postLogin));
      if u.confirmedAt.None? then
        Ok(ViewResult(landing, session, true, [EmailConfirmed], [SaveUser(u.(confirmedAt := Some(now)))]))
      else
        Ok(ViewResult(landing, session, false, [AlreadyConfirmed], []))
  }

  /** Following a confirmation link twice: the second visit, for the user the
      first one saved, finds them confirmed, commits nothing and keeps the
      session the first visit set up. */
  lemma ConfirmEmailTwice(u: User, current: CurrentUser, now: int, later: int, faults: NoneFaults, urls: Urls)
    requires u.confirmedAt.None?
    ensures var first := ConfirmEmail(TokenStatus(false, false, Some(u)), current, now, faults, urls);
      && first.Ok? && first.value.flashes == [EmailConfirmed] && first.value.commit
      && var saved := u.(confirmedAt := Some(now));
      && first.value.effects == [SaveUser(saved)]
      && var second := ConfirmEmail(TokenStatus(false, false, Some(saved)), Authenticated(saved), later, faults, urls);
      && second.Ok? && second.value.flashes == [AlreadyConfirmed]
      && Quiet(second.value)
  {
  }

  /** A status naming no user is treated exactly like an invalid one. */
  lemma ConfirmMissingUserIsInvalid(expired: bool, invalid: bool, current: CurrentUser, now: int,
                                    faults: NoneFaults, urls: Urls)
    ensures ConfirmEmail(TokenStatus(expired, invalid, None), current, now, faults, urls)
         == ConfirmEmail(TokenStatus(expired, true, None), current, now, faults, urls)
  {
  }

  // ---- reset_password ----

  /** `reset_password(token)`: the token is judged before the form. An invalid
      token flashes `INVALID_RESET_PASSWORD_TOKEN`, an expired one
      `PASSWORD_RESET_EXPIRED`; either way the answer is a redirect to the
      forgot-password view. With a good token, a submitted valid form updates
      the password, flashes `PASSWORD_RESET`, logs the user in and commits;
      otherwise the form is shown again. A status naming no user fails at
      `user.email` when expired, else in `update_password` or `login_user`. */
  function ResetPassword(t: TokenStatus, d: ResetPasswordData, submitted: bool, s: Datastore.Store,
                         faults: NoneFaults, urls: Urls, ext: Capabilities): (r: Result<ViewResult, Exception>)
    ensures r.Err? <==>
      t.user.None? && (t.expired || (!t.invalid && submitted && ResetPasswordValidate(s, d, ext).valid))
    ensures r.Err? && t.expired ==> r.error == NoEmail
    ensures r.Err? && !t.expired ==> r.error == FirstFault(faults.updatePassword, faults.loginUser)
    ensures r.Ok? && (t.invalid || t.expired) ==>
      && r.value.response == Redirect(urls.forgotPassword) && Quiet(r.value)
      && (InvalidResetPasswordToken in r.value.flashes <==> t.invalid)
      && (PasswordResetExpired in r.value.flashes <==> t.expired)
    ensures r.Ok? ==>
      (r.value.effects != [] <==> !t.invalid && !t.expired && submitted && ResetPasswordValidate(s, d, ext).valid)
    ensures r.Ok? && r.value.effects != [] ==>
      && r.value.effects == [UpdatePassword(t.user.value, d.password)]
      && r.value.session == LogIn(t.user.value) && r.value.commit
      && r.value.flashes == [PasswordReset]
      && r.value.response == Redirect(Or(urls.postReset, urls.postLogin))
    ensures r.Ok? && !t.invalid && !t.expired && !(submitted && ResetPasswordValidate(s, d, ext).valid) ==>
      r.value == ViewResult(RenderTemplate, Unchanged, false, [], [])
  {
    var flashes := if t.invalid then [InvalidResetPasswordToken] else [];
    if t.expired then
      if t.user.None? then Err(NoEmail)
      else Ok(ViewResult(Redirect(urls.forgotPassword), Unchanged, false, flashes + [PasswordResetExpired], []))
    else if t.invalid then
      Ok(ViewResult(Redirect(urls.forgotPassword), Unchanged, false, flashes, []))
    else if submitted && ResetPasswordValidate(s, d, ext).valid then
      match t.user
      case None => Err(FirstFault(faults.updatePassword, faults.loginUser))
      case Some(u) =>
        Ok(ViewResult(Redirect(Or(urls.postReset, urls.postLogin)), LogIn(u), true, [PasswordReset],
                      [UpdatePassword(u, d.password)]))
    else
      Ok(ViewResult(RenderTemplate, Unchanged, false, [], []))
  }

  /** A bad token decides the answer before the form is looked at: what was
      submitted, and whether it was, makes no difference. */
  lemma ResetTokenJudgedFirst(t: TokenStatus, d1: ResetPasswordData, sub1: bool, d2: ResetPasswordData, sub2: bool,
                              s: Datastore.Store, faults: NoneFaults, urls: Urls, ext: Capabilities)
    requires t.invalid || t.expired
    ensures ResetPassword(t, d1, sub1, s, faults, urls, ext) == ResetPassword(t, d2, sub2, s, faults, urls, ext)
  {
  }

  /** The password changes only through a good token and a valid form, and
      then it is the password the form carried. */
  lemma ResetUpdatesOnlyWithGoodTokenAndForm(t: TokenStatus, d: ResetPasswordData, submitted: bool,
                                             s: Datastore.Store, faults: NoneFaults, urls: Urls, ext: Capabilities,
                                             u: User, p: string)
    requires ResetPassword(t, d, submitted, s, faults, urls, ext).Ok?
    requires UpdatePassword(u, p) in ResetPassword(t, d, submitted, s, faults, urls, ext).value.effects
    ensures !t.invalid && !t.expired && t.user == Some(u)
    ensures p == d.password && !IsBlank(p) && 6 <= |p| <= 128 && d.passwordConfirm == p
  {
  }

  // ---- _render_json ----

  /** `_render_json(form, include_auth_token)`: 400 with the form's errors
      when it has any; otherwise 200 with the form user's id as a string and,
      when asked, their authentication token. */
  function RenderJson(errors: seq<FieldError>, user: Option<User>, includeAuthToken: bool, ext: Capabilities)
    : (r: Result<Response, Exception>)
    ensures r.Err? <==> errors == [] && user.None?
    ensures r.Err? ==> r.error == Missing("id")
    ensures r.Ok? ==> r.value.Json?
    ensures r.Ok? ==> (r.value.code == 400 <==> errors != [])
    ensures r.Ok? ==> (r.value.code == 200 <==> errors == [])
    ensures r.Ok? && errors != [] ==> r.value.body == ErrorsBody(errors)
    ensures r.Ok? && errors == [] ==>
      && r.value.body.UserBody?
      && ParseInt(r.value.body.id) == Some(user.value.id)
      && (r.value.body.authenticationToken.Some? <==> includeAuthToken)
      && (includeAuthToken ==> r.value.body.authenticationToken == Some(ext.authToken(user.value)))
  {
    if errors != [] then Ok(Json(400, ErrorsBody(errors)))
    else
      match user
      case None => Err(Missing("id"))
      case Some(u) =>
        ParseShowInt(u.id);
        Ok(Json(200, UserBody(ShowInt(u.id), if includeAuthToken then Some(ext.authToken(u)) else None)))
  }

  // ---- register ----

  /** The class of the registration form: `RegisterForm` carries the retype
      field, `ConfirmRegisterForm` does not. Neither declares `user`. */
  function RegisterFormClass(d: RegisterData): string {
    if d.passwordConfirm.Some? then "RegisterForm" else "ConfirmRegisterForm"
  }

  /** The registration settings: `confirmable` and `login_without_confirmation`. */
  datatype RegisterConfig = RegisterConfig(confirmable: bool, loginWithoutConfirmation: bool)

  /** `register()`: a submitted valid form registers the user with the
      form's e-mail and password (`registered` is what `register_user`
      returned) and logs them in, committing, unless confirmation is required
      first; a browser is then redirected, a JSON client gets the rendered
      form. A JSON request whose form is not accepted gets the errors; a
      browser gets the form page again. */
  function Register(d: RegisterData, submitted: bool, json: bool, registered: User, cfg: RegisterConfig,
                    s: Datastore.Store, urls: Urls, ext: Capabilities): (r: Result<ViewResult, Exception>)
    ensures var accepted := submitted && RegisterValidate(s, d, ext).valid;
      && (r.Ok? && accepted ==>
            && r.value.effects == [RegisterUser(d.email, d.password)]
            && (r.value.session == LogIn(registered) <==> !cfg.confirmable || cfg.loginWithoutConfirmation)
            && (r.value.session != LogIn(registered) ==> r.value.session == Unchanged)
            && (r.value.commit <==> !cfg.confirmable || cfg.loginWithoutConfirmation))
      && (accepted && !json ==> r.Ok? && r.value.response == Redirect(urls.postRegister))
      && (accepted && json ==> r.Ok? && r.value.response.Json? && r.value.response.code == 200)
      && (!accepted ==> r.Ok? ==> Quiet(r.value))
      && (!accepted && !json ==> r == Ok(ViewResult(RenderTemplate, Unchanged, false, [], [])))
      && (!accepted && json && submitted ==>
            r == Ok(ViewResult(Json(400, ErrorsBody(RegisterValidate(s, d, ext).errors)), Unchanged, false, [], [])))
    ensures json && !submitted ==> r == Err(NoFormAttribute(RegisterFormClass(d), "user"))
  {
    var form := RegisterValidate(s, d, ext);
    if submitted && form.valid then
      var logIn := !cfg.confirmable || cfg.loginWithoutConfirmation;
      var session := if logIn then LogIn(registered) else Unchanged;
      var effects := [RegisterUser(d.email, d.password)];
      if !json then Ok(ViewResult(Redirect(urls.postRegister), session, logIn, [], effects))
      else
        var rendered := RenderJson(form.errors, Some(registered), false, ext);
        Ok(ViewResult(rendered.value, session, logIn, [], effects))
    else if json && submitted then
      var rendered := RenderJson(form.errors, None, false, ext);
      match rendered
      case Err(e) => Err(e)
      case Ok(response) => Ok(ViewResult(response, Unchanged, false, [], []))
    else if json then
      // An unsubmitted form has no errors, so `_render_json` reads `form.user`,
      // which the registration forms do not declare.
      Err(NoFormAttribute(RegisterFormClass(d), "user"))
    else
      Ok(ViewResult(RenderTemplate, Unchanged, false, [], []))
  }

  /** A registration happens exactly for a submitted form the registration
      form accepts, and then for an e-mail no stored user has and a password
      of acceptable length, as the form submitted them. */
  lemma RegisterOnlyAccepted(d: RegisterData, submitted: bool, json: bool, registered: User, cfg: RegisterConfig,
                             s: Datastore.Store, urls: Urls, ext: Capabilities)
    requires Register(d, submitted, json, registered, cfg, s, urls, ext).Ok?
    ensures (exists e | e in Register(d, submitted, json, registered, cfg, s, urls, ext).value.effects :: e.RegisterUser?)
            <==> submitted && RegisterValidate(s, d, ext).valid
    ensures forall e | e in Register(d, submitted, json, registered, cfg, s, urls, ext).value.effects && e.RegisterUser? ::
      && e == RegisterUser(d.email, d.password)
      && Datastore.GetUser(s, e.email).None? && ext.isEmail(e.email)
      && !IsBlank(e.password) && 6 <= |e.password| <= 128
  {
    var r := Register(d, submitted, json, registered, cfg, s, urls, ext);
    if submitted && RegisterValidate(s, d, ext).valid {
      assert RegisterUser(d.email, d.password) in r.value.effects;
    }
  }

  // ---- anonymous_user_required ----

  /** What an authenticated requester gets from a view for anonymous users
      only: a redirect to the post-login view, with nothing else done. */
  function TurnedAway(urls: Urls): ViewResult {
    ViewResult(Redirect(urls.postLogin), Unchanged, false, [], [])
  }

  /** `@anonymous_user_required` around a view body: an authenticated
      requester is turned away before the body runs; the anonymous user gets
      the body's answer. */
  function AnonymousOnly(current: CurrentUser, body: Result<ViewResult, Exception>, urls: Urls): (r: Result<ViewResult, Exception>)
    ensures current.Authenticated? ==> r.Ok? && Quiet(r.value) && r.value.response == Redirect(urls.postLogin)
    ensures current.Anonymous? ==> r == body
  {
    if current.Authenticated? then Ok(TurnedAway(urls)) else body
  }

  /** The routed `token_login`, `reset_password` and `register` views: for an
      authenticated requester none of them logs in, commits, mails, registers
      or changes a password, whatever the token or the form. */
  lemma AuthenticatedRequesterTurnedAway(u: User, t: TokenStatus, d: ResetPasswordData, rd: RegisterData,
                                         submitted: bool, json: bool, registered: User, cfg: RegisterConfig,
                                         s: Datastore.Store, faults: NoneFaults, urls: Urls, ext: Capabilities)
    ensures AnonymousOnly(Authenticated(u), TokenLogin(t, faults, urls), urls) == Ok(TurnedAway(urls))
    ensures AnonymousOnly(Authenticated(u), ResetPassword(t, d, submitted, s, faults, urls, ext), urls) == Ok(TurnedAway(urls))
    ensures AnonymousOnly(Authenticated(u), Register(rd, submitted, json, registered, cfg, s, urls, ext), urls)
            == Ok(TurnedAway(urls))
  {
  }

  // ---- logout ----

  /** `logout()`: an authenticated user is logged out (the anonymous user is
      left alone); the redirect goes to the `next` argument when it is a
      non-empty string, else to `post_logout_view`. */
  function Logout(current: CurrentUser, next: Option<string>, urls: Urls): (r: ViewResult)
    ensures r.session == LogOut <==> current.Authenticated?
    ensures r.session != LogOut ==> r.session == Unchanged
    ensures !r.commit && r.flashes == [] && r.effects == []
    ensures next.Some? && next.value != "" ==> r.response == Redirect(next.value)
    ensures next.None? || next == Some("") ==> r.response == Redirect(urls.postLogout)
  {
    var session := if current.Authenticated? then LogOut else Unchanged;
    ViewResult(Redirect(Or(next.GetOr(""), urls.postLogout)), session, false, [], [])
  }
}
