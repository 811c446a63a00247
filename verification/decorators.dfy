/** The route guards: HTTP Basic authentication, bearer-token authentication,
    and the two role guards. Each guard decides one outcome for a request;
    `Allow` is the only outcome under which the wrapped view runs. */
module Decorators {
  import opened Wrappers
  import opened Text
  import opened Users
  import opened External
  import opened Datastore

  /** The `Authorization: Basic` credentials werkzeug parsed from a request. */
  datatype Credentials = Credentials(username: string, password: string)

  /** The parts of a request the guards read. Header names are stored
      lower-cased, since header lookup ignores case. */
  datatype Request = Request(
    url: string,
    referrer: Option<string>,
    args: map<string, string>,
    headers: map<string, string>,
    authorization: Option<Credentials>)

  /** The settings the guards read: the login view and the names under which
      an authentication token may travel. */
  datatype GuardConfig = GuardConfig(loginView: string, tokenHeader: string, tokenKey: string)

  /** What a guard answers. `RedirectLogin` carries the requested URL as `next`;
      `Denied` is a redirect with an optional flashed error; `Unauthorized` is a
      401 with an optional `WWW-Authenticate` challenge. */
  datatype Outcome =
    | Allow
    | RedirectLogin(loginView: string, next: string)
    | Denied(location: string, flashed: Option<string>)
    | Unauthorized(challenge: Option<string>)

  const BasicChallenge: string := "Basic realm=\"Login Required\""
  const PermissionMessage: string := "You do not have permission to view this resource"

  /** `request.headers.get(name, None)`. */
  function Header(req: Request, name: string): Option<string> {
    if Lower(name) in req.headers then Some(req.headers[Lower(name)]) else None
  }

  /** `request.args.get(key, header_token)`: a query argument, when present,
      wins over the header, even when empty. */
  function SelectToken(req: Request, cfg: GuardConfig): (token: Option<string>)
    ensures cfg.tokenKey in req.args ==> token == Some(req.args[cfg.tokenKey])
    ensures cfg.tokenKey !in req.args ==> token == Header(req, cfg.tokenHeader)
    ensures token.None? ==> cfg.tokenKey !in req.args && Lower(cfg.tokenHeader) !in req.headers
  {
    var headerToken := Header(req, cfg.tokenHeader);
    if cfg.tokenKey in req.args then Some(req.args[cfg.tokenKey]) else headerToken
  }

  /** Whichever header a request carries, a token in the query decides. */
  lemma QueryTokenWins(req: Request, cfg: GuardConfig, headerValue: string)
    requires cfg.tokenKey in req.args
    ensures SelectToken(req.(headers := req.headers[Lower(cfg.tokenHeader) := headerValue]), cfg)
            == SelectToken(req, cfg) == Some(req.args[cfg.tokenKey])
  {
  }

  /** `_check_token` as written: the lookup `find_user(authentication_token=token)`
      succeeds. With no token at all the lookup asks for users whose token is
      unset, and succeeds when there is one. */
  function CheckTokenAsWritten(s: Store, token: Option<string>): (ok: bool)
    ensures ok <==> exists u | u in s.users :: u.authenticationToken == token
  {
    FindUser(s, ByAuthenticationToken(token)).Ok?
  }


  /** `_check_token` with a missing token rejected: it passes exactly when a
      token was sent and some stored user holds it. */
  function CheckToken(s: Store, token: Option<string>): (ok: bool)
    ensures ok <==> token.Some? && exists u | u in s.users :: u.authenticationToken == token
    ensures ok ==> CheckTokenAsWritten(s, token)
  {
    token.Some? && FindUser(s, ByAuthenticationToken(token)).Ok?
  }

  /** The two checks differ only on requests that carry no token. */
  lemma CheckTokenAgrees(s: Store, token: Option<string>)
    requires token.Some?
    ensures CheckToken(s, token) == CheckTokenAsWritten(s, token)
  {
  }

  /** `auth_token_required` as written: the view runs when `_check_token`
      passes; otherwise `abort(401)`, with no challenge header. A request
      without a token therefore passes once a stored user has no token. */
  function AuthTokenRequired(s: Store, req: Request, cfg: GuardConfig): (r: Outcome)
    ensures r.Allow? <==> exists u | u in s.users :: u.authenticationToken == SelectToken(req, cfg)
    ensures !r.Allow? ==> r == Unauthorized(None)
  {
    if CheckTokenAsWritten(s, SelectToken(req, cfg)) then Allow else Unauthorized(None)
  }

  /** The guard with the corrected check: it admits a request only when the
      request carries a token some stored user holds. */
  function AuthTokenRequiredChecked(s: Store, req: Request, cfg: GuardConfig): (r: Outcome)
    ensures r.Allow? <==> SelectToken(req, cfg).Some? &&
                          exists u | u in s.users :: u.authenticationToken == SelectToken(req, cfg)
    ensures !r.Allow? ==> r == Unauthorized(None)
    ensures r.Allow? ==> AuthTokenRequired(s, req, cfg).Allow?
  {
    if CheckToken(s, SelectToken(req, cfg)) then Allow else Unauthorized(None)
  }

  /** A request without any token passes the check as written, and so
      reaches a view guarded by `auth_token_required`, as soon as one stored
      user has no token. */
  lemma MissingTokenPassesAsWritten(s: Store, req: Request, cfg: GuardConfig, u: User)
    requires cfg.tokenKey !in req.args && Lower(cfg.tokenHeader) !in req.headers
    requires u in s.users && u.authenticationToken.None?
    ensures SelectToken(req, cfg).None?
    ensures CheckTokenAsWritten(s, SelectToken(req, cfg))
    ensures AuthTokenRequired(s, req, cfg) == Allow
    ensures AuthTokenRequiredChecked(s, req, cfg) == Unauthorized(None)
  {
  }

  /** The two guards answer alike on every request that carries a token, and
      differ exactly on token-less requests while some stored user has no
      token. */
  lemma AuthTokenGuardsAgree(s: Store, req: Request, cfg: GuardConfig)
    ensures SelectToken(req, cfg).Some? ==> AuthTokenRequiredChecked(s, req, cfg) == AuthTokenRequired(s, req, cfg)
    ensures AuthTokenRequiredChecked(s, req, cfg) != AuthTokenRequired(s, req, cfg) <==>
      SelectToken(req, cfg).None? && exists u | u in s.users :: u.authenticationToken.None?
  {
  }

  /** `_check_http_auth`: without an `Authorization` header the lookup fails
      (the fallback dict has no `username` attribute) and the check is false;
      an unknown e-mail is false; otherwise the password decides. */
  function CheckHttpAuth(s: Store, req: Request, ext: Capabilities): (ok: bool)
    ensures ok <==>
      && req.authorization.Some?
      && GetUser(s, req.authorization.value.username).Some?
      && ext.verify(req.authorization.value.password, GetUser(s, req.authorization.value.username).value.password)
  {
    match req.authorization
    case None => false
    case Some(auth) =>
      match FindUser(s, ByEmail(Some(auth.username)))
      case Err(_) => false
      case Ok(user) => ext.verify(auth.password, user.password)
  }

  /** `http_auth_required`: the view runs when the Basic check passes; every
      failure (no header, unknown user, wrong password) is the same 401 with
      the `Basic realm="Login Required"` challenge. */
  function HttpAuthRequired(s: Store, req: Request, ext: Capabilities): (r: Outcome)
    ensures r.Allow? <==> CheckHttpAuth(s, req, ext)
    ensures !r.Allow? ==> r == Unauthorized(Some(BasicChallenge))
  {
    if CheckHttpAuth(s, req, ext) then Allow else Unauthorized(Some(BasicChallenge))
  }

  /** An unknown user and a wrong password are answered identically. */
  lemma HttpAuthUniformDenial(s: Store, r1: Request, r2: Request, ext: Capabilities)
    requires r1.authorization.Some? && GetUser(s, r1.authorization.value.username).None?
    requires r2.authorization.Some? && GetUser(s, r2.authorization.value.username).Some?
    requires !ext.verify(r2.authorization.value.password, GetUser(s, r2.authorization.value.username).value.password)
    ensures HttpAuthRequired(s, r1, ext) == HttpAuthRequired(s, r2, ext) == Unauthorized(Some(BasicChallenge))
  {
  }

  /** Flask-Principal's `Permission.allows`: a permission without needs allows
      everyone; otherwise the identity must provide one of its needs. */
  predicate PermissionAllows(needs: set<Need>, provided: set<Need>) {
    needs == {} || needs * provided != {}
  }

  /** `for perm in perms: if not perm.can(): deny`, one single-need permission
      per role, in order. */
  function AllPermit(roles: seq<string>, provided: set<Need>): (ok: bool)
    ensures ok <==> forall i | 0 <= i < |roles| :: RoleNeed(roles[i]) in provided
  {
    if |roles| == 0 then true
    else
      assert {RoleNeed(roles[0])} * provided != {} <==> RoleNeed(roles[0]) in provided by {
        if RoleNeed(roles[0]) in provided {
          assert RoleNeed(roles[0]) in {RoleNeed(roles[0])} * provided;
        }
      }
      PermissionAllows({RoleNeed(roles[0])}, provided) && AllPermit(roles[1..], provided)
  }

  /** `request.referrer or '/'`. */
  function ReferrerOrRoot(req: Request): (location: string)
    ensures req.referrer.Some? && req.referrer.value != "" ==> location == req.referrer.value
    ensures req.referrer.None? || req.referrer == Some("") ==> location == "/"
  {
    match req.referrer
    case Some(r) => if r == "" then "/" else r
    case None => "/"
  }

  /** `roles_required(*roles)`: an anonymous user is sent to the login view
      with the requested URL as `next`, before any role is looked at; an
      authenticated user passes iff they hold every listed role, and is
      otherwise sent back to the referrer without a message. */
  function RolesRequired(c: CurrentUser, roles: seq<string>, req: Request, cfg: GuardConfig): (r: Outcome)
    ensures c.Anonymous? ==> r == RedirectLogin(cfg.loginView, req.url)
    ensures c.Authenticated? ==>
      (r.Allow? <==> forall i | 0 <= i < |roles| :: roles[i] in RoleNames(c.user.roles))
    ensures c.Authenticated? && !r.Allow? ==> r == Denied(ReferrerOrRoot(req), None)
  {
    if c.Anonymous? then RedirectLogin(cfg.loginView, req.url)
    else if AllPermit(roles, ProvidedNeeds(c)) then Allow
    else Denied(ReferrerOrRoot(req), None)
  }

  /** `roles_accepted(*roles)`: one permission holding every listed role's
      need. An authenticated user passes iff no role is listed or they hold at
      least one; otherwise they are sent back to the referrer with the
      permission error flashed. */
  function RolesAccepted(c: CurrentUser, roles: seq<string>, req: Request, cfg: GuardConfig): (r: Outcome)
    ensures c.Anonymous? ==> r == RedirectLogin(cfg.loginView, req.url)
    ensures c.Authenticated? ==>
      (r.Allow? <==> |roles| == 0 || exists i | 0 <= i < |roles| :: roles[i] in RoleNames(c.user.roles))
    ensures c.Authenticated? && !r.Allow? ==> r == Denied(ReferrerOrRoot(req), Some(PermissionMessage))
  {
    if c.Anonymous? then RedirectLogin(cfg.loginView, req.url)
    else
      var needs := set i | 0 <= i < |roles| :: RoleNeed(roles[i]);
      var provided := ProvidedNeeds(c);
      assert needs == {} <==> |roles| == 0 by {
        if |roles| > 0 { assert RoleNeed(roles[0]) in needs; }
      }
      assert needs * provided != {} <==> exists i | 0 <= i < |roles| :: roles[i] in RoleNames(c.user.roles) by {
        if exists i | 0 <= i < |roles| :: roles[i] in RoleNames(c.user.roles) {
          var i :| 0 <= i < |roles| && roles[i] in RoleNames(c.user.roles);
          assert RoleNeed(roles[i]) in needs * provided;
        }
      }
      if PermissionAllows(needs, provided) then Allow
      else Denied(ReferrerOrRoot(req), Some(PermissionMessage))
  }

  /** Holding all of a non-empty list of roles satisfies the any-of guard. */
  lemma RequiredImpliesAccepted(c: CurrentUser, roles: seq<string>, req: Request, cfg: GuardConfig)
    requires |roles| > 0
    requires RolesRequired(c, roles, req, cfg).Allow?
    ensures RolesAccepted(c, roles, req, cfg).Allow?
  {
    assert roles[0] in RoleNames(c.user.roles);
  }

  /** With exactly one role listed the two guards let the same users through. */
  lemma SingleRoleGuardsAgree(c: CurrentUser, role: string, req: Request, cfg: GuardConfig)
    ensures RolesRequired(c, [role], req, cfg).Allow? == RolesAccepted(c, [role], req, cfg).Allow?
  {
  }

  /** Gaining roles never takes access away from either guard. */
  lemma GuardsMonotone(u: User, more: seq<Role>, roles: seq<string>, req: Request, cfg: GuardConfig)
    ensures RolesRequired(Authenticated(u), roles, req, cfg).Allow? ==>
            RolesRequired(Authenticated(u.(roles := u.roles + more)), roles, req, cfg).Allow?
    ensures RolesAccepted(Authenticated(u), roles, req, cfg).Allow? ==>
            RolesAccepted(Authenticated(u.(roles := u.roles + more)), roles, req, cfg).Allow?
  {
    RoleNamesConcat(u.roles, more);
  }
}
