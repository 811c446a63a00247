# Flask-Security policy core in Dafny

A model of the policy core of Flask-Security (the Python 2 era release with
`flask.ext.security`), written as pure Dafny functions over immutable data,
with the properties the extension promises proved about it:

- **Users** — role equality (`RoleMixin.__eq__`/`__ne__`), `has_role`, the
  anonymous user, and the needs an identity provides to Flask-Principal.
- **Datastore** — the user datastore over a store of users (in insertion
  order, so "first match" is deterministic) and roles: lookups, saving, role
  assignment, activation toggling, role and user creation.
- **Core** — the default configuration and its merge into the application's,
  the "N unit" duration settings, the session user loader, and the default
  authentication provider.
- **Decorators** — the route guards: token authentication, HTTP Basic
  authentication, `roles_required` and `roles_accepted`.
- **Recoverable** — the password-reset token lifecycle.
- **Forms** — the WTForms validator chains of the security forms, their
  `validate` overrides, and the template tag derived from a form class name.
- **Views** — the decision tables of `token_login`, `confirm_email`,
  `reset_password`, `register`, `logout` and `_render_json`.
- **Script** — the management commands, the `--active` sanitiser and the
  `commit` wrapper.

Helper modules: `Wrappers` (`Option`, `Result`), `Text` (Python string
operations the core uses: whitespace, `split`, `strip`, `lower`, `int()` and
`str()`), `Exceptions` (the exceptions the core raises or lets escape),
`Messages` (message keys), `External` (password hashing, e-mail syntax,
confirmation policy and token serialisation, passed in as functions).

Outside effects are data or parameters: the clock is an integer `now` in
microseconds, the token generator is a sequence of candidate tokens, password
hashing is a `Capabilities` record of functions, and the views return the
session change, the commit decision, the flashed messages and the mail or
save requests instead of performing them. Backend failures are not modelled:
the store never fails, so the broad `except:` clauses catch only the lookup
errors the model produces.

`forms.py` and `script.py` call `get_user(email)` and a `find_role` that
answer `None` when nothing matches, and the e-mail validators compare
`find_user(email=...)` with `None`; `datastore.py` raises instead. The model
follows each caller: `Datastore.GetUser` is an `Option` lookup by e-mail used
by the forms and commands, while `FindUser`, `WithId` and `FindRole` raise
(return `Err`) as `datastore.py` does. Likewise the `commit` decorator and
`_commit` (`flask_security/script.py:37-41`, `flask_security/views.py:54-56`)
call a datastore `commit()` that no class in `datastore.py` defines, while the
SQLAlchemy datastore commits inside every save
(`flask_security/datastore.py:236-238`). The model takes `commit()` as its
callers expect it: `Script.Commit` counts one commit when the command
returns, and the views report whether they ask for one.

The description of the token guard says the header token is used; the code
(`flask_security/decorators.py:35-36`) lets a query argument win over the
header. The model follows the code.

## Model

| member | source | states |
|---|---|---|
| Users.RoleEq | flask_security/user_core/users.py:15-17 | a role equals exactly the operands that name it: a string equal to its name, or a role with the same name |
| Users.RoleNe | flask_security/user_core/users.py:19-21 | the source's conjunction of negated comparisons is exactly the negation of role equality |
| Users.HasRole | flask_security/user_core/users.py:35-39 | `has_role` holds iff the operand names a role and that name is among the user's role names |
| Users.CurrentHasRole | flask_security/user_core/users.py:41-50 | the anonymous user has no role; an authenticated user has exactly the roles it holds |
| Users.ProvidedNeeds | flask_security/core.py:186-193 | an authenticated identity provides exactly its user need and one role need per held role; the anonymous identity provides nothing |
| Datastore.FindUser | flask_security/datastore.py:127-135 | the result is a stored user matching the query; `UserNotFoundError` iff no stored user matches |
| Datastore.WithId | flask_security/datastore.py:118-125 | the stored user with that id; `UserIdNotFoundError` iff no user has it |
| Datastore.GetUser | flask_security/forms.py:273-277 | a stored user with that e-mail; `None` iff no stored user has it |
| Datastore.FindRole | flask_security/datastore.py:137-145 | a stored role with that name; `RoleNotFoundError` iff no role has the name |
| Datastore.Save | flask_security/datastore.py:236-239 | saving keeps the roles and puts the user in the store |
| Datastore.SaveStored | flask_security/datastore.py:236-239 | in a store with unique ids, saving a stored user's new version overwrites its position and keeps ids unique |
| Datastore.SaveThenLoad | flask_security/datastore.py:236-239 | after a save `with_id` returns the saved user, every other id finds what it found before, and ids stay unique |
| Datastore.PrepareRoleModify | flask_security/datastore.py:74-78 | a role instance is reduced to its name; the stored user (by e-mail) and stored role (by name) are found, and the error says which was missing, the user checked first |
| Datastore.AppendIfAbsent | flask_security/datastore.py:48-52 | the role names grow by exactly the added name, an already-held role changes nothing, the old list is a prefix, and distinct names stay distinct |
| Datastore.RemoveFirst | flask_security/datastore.py:54-58 | a role not held changes nothing; a held one shortens the list by one; every other role stays; with distinct names exactly that name disappears |
| Datastore.AddRoleToUser | flask_security/datastore.py:165-172 | fails iff the user or role is missing; otherwise the stored user's role names gain the role, nothing else about the user changes, and the user is saved |
| Datastore.RemoveRoleFromUser | flask_security/datastore.py:174-181 | fails iff the user or role is missing; otherwise the role is dropped, other roles stay, nothing else about the user changes, and the user is saved |
| Datastore.AddRoleIdempotent | flask_security/datastore.py:48-52 | adding the same role twice gives the same store and user as adding it once |
| Datastore.AddThenRemoveRestores | flask_security/datastore.py:48-58 | removing a role that adding just introduced gives back the stored user |
| Datastore.ToggleActive | flask_security/datastore.py:60-66 | with no value the stored user's flag flips, with a value it is set; nothing else about the user changes and the user is saved; a missing user is `UserNotFoundError` |
| Datastore.DeactivateUser | flask_security/datastore.py:183-188 | the stored user ends inactive; fails iff the e-mail is unknown |
| Datastore.ActivateUser | flask_security/datastore.py:190-195 | the stored user ends active; fails iff the e-mail is unknown |
| Datastore.ToggleTwiceRestores | flask_security/datastore.py:60-66 | toggling without a value twice restores the store |
| Datastore.CreateRole | flask_security/datastore.py:80-84 | leaving the name out is a `KeyError`, passing `None` is `RoleCreationError`; otherwise the role is appended and can be found by name |
| Datastore.CreateUser | flask_security/datastore.py:86-116 | missing e-mail, then missing password, is `UserCreationError`; roles passed as `None` are a `TypeError`; fails with `RoleNotFoundError` iff a requested role is unknown; otherwise the new user has the given e-mail, the active flag (true when left out, false for a passed `None`), the resolved roles in order (the default roles when left out), a password hashed unless already a hash, no reset token, the next id, and ids stay unique |
| Core.WithDefaults | flask_security/core.py:215-216 | application settings are kept, every default is present under its `SECURITY_` key, and nothing else is added |
| Core.MergeDefaults | flask_security/core.py:215-216 | the key-by-key `setdefault` loop ends in exactly the merged configuration |
| Core.WithDefaultsUnique | flask_security/core.py:215-216 | any configuration that keeps, adds and omits as the merge does is the merge |
| Core.WithDefaultsIdempotent | flask_security/core.py:215-216 | merging the defaults a second time changes nothing |
| Core.PrefixedInjective | flask_security/core.py:215-216 | two defaults never land on the same prefixed key |
| Core.ParseDuration | flask_security/core.py:255-261 | the value is the count times the unit's length whenever the text parses, and it parses iff it has two words, a count, a known unit and an in-range product; a malformed count is a `ValueError`, an unknown unit a `TypeError`, too large a product an `OverflowError` |
| Core.ParseDurationRoundTrip | flask_security/core.py:255-261 | writing a count and a unit, with any further words, parses back to the count in that unit |
| Core.ParseDurationCountFirst | flask_security/core.py:255-261 | a malformed count is a `ValueError` even when the unit is missing, because the count is converted first |
| Core.DefaultWindows | flask_security/core.py:55-56 | the shipped windows parse to five and two days |
| Core.DefaultWindowTexts | flask_security/core.py:55-56 | the defaults hold `5 days` for confirmation and `2 days` for reset |
| Core.LoadUser | flask_security/core.py:178-183 | the stored user with that id, and `None` iff there is none |
| Core.LoadUserAfterSave | flask_security/core.py:178-183 | a saved user is what the session loader brings back for its id |
| Core.DoAuthenticate | flask_security/core.py:383-410 | success iff the user exists, needs no confirmation and the password verifies, returning that user; every failure is `BadCredentialsError` with the message of the first failed check: no such user, confirmation required, password mismatch |
| Core.ConfirmationHidesPassword | flask_security/core.py:399-404 | for an account awaiting confirmation the answer does not depend on the password |
| Core.Authenticate | flask_security/core.py:369-381 | a blank e-mail, then a blank password, raise their field error; otherwise the credentials are checked, whatever other form error there is |
| Core.AuthenticateIgnoresCsrf | flask_security/core.py:375-381 | a form that fails only its CSRF check still authenticates |
| Core.AuthenticateChecked | flask_security/core.py:369-381 | success only for a valid form; a valid form is checked by `do_authenticate`; an invalid one is always `BadCredentialsError` |
| Core.AuthenticateCheckedAgrees | flask_security/core.py:369-381 | the corrected provider agrees with the original on valid forms and on forms with a blank field |
| Decorators.SelectToken | flask_security/decorators.py:32-36 | the query argument, when present (even empty), wins; otherwise the header; no token only when neither is sent |
| Decorators.QueryTokenWins | flask_security/decorators.py:35-36 | changing the header does not change the token when the query carries one |
| Decorators.CheckTokenAsWritten | flask_security/decorators.py:31-43 | the check passes iff some stored user's token equals the selected token, an absent token included |
| Decorators.MissingTokenPassesAsWritten | flask_security/decorators.py:31-43 | a request with no token passes the check and reaches the guarded view once a stored user has no token; the corrected guard refuses it |
| Decorators.CheckToken | flask_security/decorators.py:31-43 | passes iff a token was sent and some stored user holds it; implies the check as written |
| Decorators.CheckTokenAgrees | flask_security/decorators.py:31-43 | the corrected and the original check agree on every request that carries a token |
| Decorators.AuthTokenRequired | flask_security/decorators.py:70-79 | the view runs iff some stored user's token equals the selected token, an absent one included, as the lookup decides; otherwise a 401 with no challenge |
| Decorators.AuthTokenRequiredChecked | flask_security/decorators.py:70-79 | the corrected guard runs the view iff a token was sent and some stored user holds it; it admits only what the guard as written admits |
| Decorators.AuthTokenGuardsAgree | flask_security/decorators.py:31-79 | the two guards agree on every request carrying a token, and differ exactly on token-less requests while some stored user has no token |
| Decorators.CheckHttpAuth | flask_security/decorators.py:46-54 | passes iff Basic credentials were sent, the e-mail belongs to a stored user and the password verifies against that user's hash |
| Decorators.HttpAuthRequired | flask_security/decorators.py:57-67 | the view runs iff the Basic check passes; every failure is a 401 with the `Basic realm="Login Required"` challenge |
| Decorators.HttpAuthUniformDenial | flask_security/decorators.py:46-67 | an unknown user and a wrong password get the same answer |
| Decorators.AllPermit | flask_security/decorators.py:105-109 | the per-role permissions all pass iff every listed role's need is provided |
| Decorators.ReferrerOrRoot | flask_security/decorators.py:109 | the referrer when there is a non-empty one, else `/` |
| Decorators.RolesRequired | flask_security/decorators.py:82-112 | anonymous users go to the login view with the requested URL as next; an authenticated user passes iff they hold every listed role, else goes back to the referrer with no message |
| Decorators.RolesAccepted | flask_security/decorators.py:115-150 | anonymous users go to the login view; an authenticated user passes iff no role is listed or they hold one of them, else goes back with the permission message |
| Decorators.RequiredImpliesAccepted | flask_security/decorators.py:82-150 | passing the all-of guard on a non-empty list passes the any-of guard |
| Decorators.SingleRoleGuardsAgree | flask_security/decorators.py:82-150 | with one role listed both guards let the same users through |
| Decorators.GuardsMonotone | flask_security/decorators.py:82-150 | gaining roles never takes access away from either guard |
| Recoverable.FindUserByResetToken | flask_security/recoverable.py:16-19 | a missing or empty token is refused before any lookup; otherwise success iff a stored user holds the token, returning such a user |
| Recoverable.GenerateResetPasswordToken | flask_security/recoverable.py:38-55 | the issued token is the first generated candidate no stored user holds: non-empty, held by nobody, preceded only by held candidates, and stored on the user with `sent_at = now`; an empty candidate escapes as the lookup's error |
| Recoverable.IsExpired | flask_security/recoverable.py:58-60 | expired iff sent more than `within` before now; no `sent_at` is a `TypeError` |
| Recoverable.ExpiryBoundary | flask_security/recoverable.py:58-60 | a token sent exactly `within` ago is valid, one a microsecond older has expired |
| Recoverable.ExpiryMonotone | flask_security/recoverable.py:58-60 | once expired, a token stays expired |
| Recoverable.ResetByToken | flask_security/recoverable.py:63-76 | an unknown token is "Invalid reset password token", judged before expiry; an expired one raises `TokenExpiredError` with the user; success clears token and time, stores the hashed password and saves |
| Recoverable.ResetIgnoresEmail | flask_security/recoverable.py:63-76 | the e-mail argument plays no part in the reset |
| Recoverable.ResetTokenSingleUse | flask_security/recoverable.py:63-76 | after a successful reset the same token is refused as invalid |
| Recoverable.ResetPasswordResetToken | flask_security/recoverable.py:85-86 | the user is saved with a fresh token and `sent_at = now`; the new token then finds exactly that user, as does its id, and reset tokens stay unique |
| Recoverable.IssuedTokenFindsUser | flask_security/recoverable.py:85-86 | saving a user with a token nobody else holds makes the token find that user |
| Recoverable.SaveKeepsUniqueResetTokens | flask_security/datastore.py:236-239 | saving a user whose token no other stored user holds keeps reset tokens unique |
| Recoverable.ResaveKeepsUniqueResetTokens | flask_security/datastore.py:165-195 | writing a stored user back with its token unchanged, as role changes and activation toggles do, keeps reset tokens unique |
| Recoverable.AddTokenlessKeepsUniqueResetTokens | flask_security/datastore.py:155-163 | adding a user without a reset token, as `create_user` does, keeps reset tokens unique |
| Recoverable.ResetByTokenKeepsUnique | flask_security/recoverable.py:63-76 | a successful reset keeps reset tokens unique, so the invariant single use relies on holds across the whole lifecycle |
| Forms.RunChain | flask_security/forms.py:69-72 | a field has no error iff every validator passes; a stop replaces the field's errors with its own message |
| Forms.FailRecorded | flask_security/forms.py:69-72 | without a stop, every failing validator's message is recorded |
| Forms.FieldErrors | flask_security/forms.py:69-72 | a field's errors are empty iff every validator passes, and all carry the field |
| Forms.NewPasswordChain | flask_security/forms.py:138-141 | the new-password chain accepts exactly non-blank passwords of 6 to 128 characters; a blank one reports only "not provided" |
| Forms.LoginValidate | flask_security/forms.py:260-290 | valid iff the next URL is safe, CSRF holds, both fields are non-blank, the user exists, has a password, it verifies, no confirmation is required and the account is active; the first failed step alone is reported, on its own field: the base errors, then `EMAIL_NOT_PROVIDED`, `PASSWORD_NOT_PROVIDED`, `USER_DOES_NOT_EXIST`, `PASSWORD_NOT_SET`, `INVALID_PASSWORD`, `CONFIRMATION_REQUIRED`, `DISABLED_ACCOUNT` |
| Forms.LoginPasswordBeforeAccountState | flask_security/forms.py:278-289 | a wrong password is reported as such whatever the account's confirmation and activity |
| Forms.ChangePasswordValidate | flask_security/forms.py:327-357 | valid iff the fields pass, the current password verifies and the new one differs once stripped; the two late failures report their own message |
| Forms.UnknownEmailReported | flask_security/forms.py:85-88 | an unknown non-blank e-mail is reported as `USER_DOES_NOT_EXIST` |
| Forms.SendConfirmationValidate | flask_security/forms.py:188-201 | valid iff CSRF holds, the e-mail is non-blank, well-formed, belongs to a user, and that user is unconfirmed; a confirmed user gets `ALREADY_CONFIRMED` |
| Forms.PasswordlessValidate | flask_security/forms.py:227-240 | valid iff the e-mail checks pass and the user is active; an inactive user gets `DISABLED_ACCOUNT` |
| Forms.ForgotPasswordValidate | flask_security/forms.py:204-213 | valid iff CSRF holds and the e-mail is non-blank, well-formed and belongs to a user, who is the form's user |
| Forms.RegisterValidate | flask_security/forms.py:293-311 | valid iff CSRF holds, the e-mail is non-blank, well-formed and unused, the password is non-blank and 6 to 128 long, and a retyped password, when the form has one, matches |
| Forms.RegisterRejectsTakenEmail | flask_security/forms.py:79-82 | an e-mail already in the store is refused with `EMAIL_ALREADY_ASSOCIATED` |
| Forms.ResetPasswordValidate | flask_security/forms.py:314-324 | valid iff CSRF holds, the password is non-blank and 6 to 128 long, and the retyped one matches |
| Forms.CtxTag | flask_security/forms.py:100-103 | the tag has no capitals and neither starts nor ends with an underscore |
| Forms.CtxTagOfCamelCase | flask_security/forms.py:100-103 | for a class name of capitalised words ending in `Form`, the tag is the words lower-cased and joined by underscores |
| Views.TokenLogin | flask_security/views.py:119-137 | the session changes and the request commits iff the token is neither invalid nor expired; failures redirect to login, flashing the invalid message first, and an expired token re-sends instructions to its user; a status with no user fails with what the mail helper raises (else the `AttributeError` of `user.email`) when expired, and with what `login_user` raises otherwise |
| Views.TokenLoginFailureChangesNothing | flask_security/views.py:125-131 | a failed token login changes neither session nor database, and sends mail only for an expired token |
| Views.ConfirmEmail | flask_security/views.py:154-182 | a token with no user counts as invalid; bad tokens redirect to the error view (or send-confirmation) without confirming; a good one switches the session iff the user is not current, and commits and flashes `EMAIL_CONFIRMED` iff the user was unconfirmed, else `ALREADY_CONFIRMED`; only an expired status with no user fails, with what the mail helper raises, else the `AttributeError` of `user.email` |
| Views.ConfirmEmailTwice | flask_security/views.py:173-179 | a second confirmation of the same user finds them confirmed and changes nothing |
| Views.ConfirmMissingUserIsInvalid | flask_security/views.py:159-161 | a status naming no user is handled exactly like an invalid one |
| Views.ResetPassword | flask_security/views.py:199-224 | bad tokens redirect to forgot-password with their messages and change nothing; the password is updated iff the token is good and the submitted form valid, then the user is logged in and the request committed; otherwise the form is shown; a status with no user fails at `user.email` when expired, and otherwise, on a valid submission, with what `update_password` or else `login_user` raises |
| Views.ResetTokenJudgedFirst | flask_security/views.py:205-214 | with a bad token the answer does not depend on the form |
| Views.ResetUpdatesOnlyWithGoodTokenAndForm | flask_security/views.py:216-222 | a password update happens only for the token's user, with a good token, and with the form's valid password |
| Views.RenderJson | flask_security/views.py:37-51 | code 400 with the errors iff there are errors, else 200 with the user id as a string that parses back to the id, and the auth token iff asked |
| Views.Register | flask_security/views.py:84-102 | an accepted form registers its e-mail and password, and the user is logged in and the request committed iff confirmation is off or login without confirmation is on; a rejected form changes nothing; a JSON request that did not submit the form fails with the `AttributeError` for `form.user`, which neither registration form declares |
| Views.RegisterOnlyAccepted | flask_security/views.py:87-89 | a registration is requested iff the submitted form is accepted, and then for an unused well-formed e-mail and a password of 6 to 128 characters |
| Views.Logout | flask_security/views.py:75-81 | only an authenticated user is logged out; the redirect goes to a non-empty `next`, else the post-logout view |
| Views.AnonymousOnly | flask_security/views.py:84 | an authenticated requester is turned away to the post-login view with nothing done; the anonymous user gets the view body's answer |
| Views.AuthenticatedRequesterTurnedAway | flask_security/views.py:84-224 | for an authenticated requester `token_login`, `reset_password` and `register` log nobody in, commit nothing, send no mail, register nobody and change no password |
| Script.SanitizeActive | flask_security/script.py:69-71 | active iff the value, without whitespace and lower-cased, is one of `''`, `y`, `yes`, `1`, `active` |
| Script.SanitizeActiveDefault | flask_security/script.py:64 | the default empty value means active |
| Script.SanitizeIgnoresSpace | flask_security/script.py:70 | whitespace anywhere in the value is ignored |
| Script.SanitizeIgnoresCase | flask_security/script.py:71 | letter case is ignored |
| Script.SanitizeExamples | flask_security/script.py:69-71 | `y` and ` Yes ` mean active, `no` does not |
| Script.GetUserOrFail | flask_security/script.py:44-48 | the datastore's user, or `ValueError` naming the identifier iff there is none |
| Script.FindRoleOrFail | flask_security/script.py:51-55 | the named role, or `ValueError` naming it iff there is none |
| Script.Commit | flask_security/script.py:37-41 | one commit iff the command returns; an exception escapes with no commit and the store unchanged |
| Script.CreateUserCommand | flask_security/script.py:67-86 | a user is created only if the registration form validates, so a taken e-mail creates nothing; a validated form creates the user iff every default role exists, else `RoleNotFoundError` escapes with nothing committed; the new user has the e-mail, the sanitised active flag, the command's password hash and the default roles in order, and is the user its e-mail finds afterwards |
| Script.CreateRoleCommand | flask_security/script.py:110-113 | the role is appended, can be found, and the run commits once |
| Script.AddRoleCommand | flask_security/script.py:126-130 | an unknown user, then an unknown role, is a `ValueError` with no commit; otherwise the user found by the identifier holds the role |
| Script.RemoveRoleCommand | flask_security/script.py:136-140 | an unknown user, then an unknown role, is a `ValueError` with no commit; otherwise one commit, after which the user found by the identifier keeps every other role and, when its role names are distinct, no longer holds this one |
| Script.RoleCommandsUndo | flask_security/script.py:123-140 | `add_role` then `remove_role` for a role the user did not hold gives back the store as it was |
| Script.SetActiveCommand | flask_security/script.py:149-163 | an unknown user is a `ValueError` with no commit; otherwise the user found by the identifier has the requested flag |
| Script.ToggleCommandsSettle | flask_security/script.py:149-163 | deactivating then activating leaves the user active |
| Text.SplitJoin | flask_security/core.py:256-257 | splitting words joined by single spaces gives the words back |
| Text.ParseShowInt | flask_security/views.py:46 | `int(str(n)) == n` |

## Left out

- DeleteUserCommand (`flask_security/script.py:89-99`): no datastore in the model defines `delete_user`.
- The views `login`, `passwordless_login`, `send_confirmation`, `forgot_password` and `change_password`: each validates its form, which `Forms` models, and then hands the user to mail or login code outside the model. `create_blueprint` is routing.
- `Security.init_app` beyond the defaults merge: it wires the login manager, Flask-Principal, the password context and blueprints.
- Mail sending, signals, flashing itself, templates, and the `_render_json` `print` are left out. The views report which mail and flashes they request.
- The confirmable, passwordless and utils modules are not part of this model. The token-status triples are inputs, `send_*_instructions` are requested effects, and `confirm_user` is taken to confirm an unconfirmed user at `now`.
- Views.TokenLogin, Views.ConfirmEmail, Views.ResetPassword: `send_login_instructions`, `send_confirmation_instructions`, `update_password` and `login_user` are outside the model, so what each raises when handed no user is the `NoneFaults` parameter. The model does not say which exception that is. It assumes only that `login_user` of no user raises.
- `do_authenticate`'s refresh of an expired confirmation token (`flask_security/core.py:399-400`) and the confirmation token that `_prepare_create_user_args` generates when `CONFIRM_EMAIL` is on (`flask_security/datastore.py:93-94`) come from the confirmable module, which is not part of this model.
- `auth_error` for a missing or failing datastore (`flask_security/core.py:392-397`): the model's store always answers.
- Password hashing, hash recognition, e-mail syntax, the confirmation policy and the auth-token serialiser are opaque functions in `Capabilities`. The token generator is a candidate sequence and the clock is a parameter.
- Recoverable.GenerateResetPasswordToken: the source loops forever if the generator never yields an unused token; the model requires that some candidate does.
- Datastore.CreateUser: the source writes the resolved roles back into the shared default-roles list; the model does not model this aliasing.
- `str.lower`, `str.upper` and `str.isupper` are modelled for ASCII letters only. Form text is `unicode`, so its blankness and `strip` use the whitespace of Python 2's Unicode 5.2 database; `split` and the `\s` of the active-flag sanitiser work on byte strings and use ASCII whitespace.
- Script.CreateUserCommand: the command-line arguments reach the registration form as byte strings, whose `strip` removes only ASCII whitespace; the model checks them as form text, so a non-ASCII space is blank here but not in the command.
- `anonymous_user_required` (imported at `flask_security/views.py:20`, worn by `register`, `token_login` and `reset_password` at lines 84, 119 and 199) is defined outside the modelled files. `Views.AnonymousOnly` takes it to redirect an authenticated requester to the post-login view without running the view. The rows of `Views.TokenLogin`, `Views.ResetPassword` and `Views.Register` describe the view body, which only the anonymous user reaches.
- `timedelta` arithmetic is integer microseconds. `int()` accepts an optional sign and ASCII digits, without surrounding whitespace or underscores.
- `LoginForm.validate_next` also flashes `INVALID_REDIRECT` and clears the field; only its error is modelled.

## Findings

| source | as written | input that shows it | evidently intended | confidence | as-written member | corrected member |
|---|---|---|---|---|---|---|
| flask_security/decorators.py:35-43 | with no token in the query or header, `find_user(authentication_token=None)` matches any user whose token is unset, and the check passes | a request with no token, against a store holding a user without an authentication token | a request without a token is refused | high, not executed | Decorators.MissingTokenPassesAsWritten | Decorators.AuthTokenRequiredChecked |
| flask_security/core.py:375-381 | an invalid form raises only for e-mail or password errors; any other error (the CSRF token) falls through to `do_authenticate` | a form with a valid e-mail and password and a missing CSRF token, for a user whose password verifies | an invalid form never authenticates | medium, not executed | Core.AuthenticateIgnoresCsrf | Core.AuthenticateChecked |
