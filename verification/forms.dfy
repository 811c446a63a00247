/** The security forms: their field validator chains, the extra checks of
    their `validate` overrides, and the template tag derived from a form's
    class name. A form's result lists its errors field by field; it is valid
    exactly when there are none. */
module Forms {
  import opened Wrappers
  import opened Text
  import opened Users
  import opened External
  import opened Datastore
  import opened Messages

  /** The fields the forms declare, plus the CSRF field the base form adds. */
  datatype FieldName = Email | Password | PasswordConfirm | NewPassword | NewPasswordConfirm | Next | CsrfToken

  datatype FieldError = FieldError(field: FieldName, key: MessageKey)

  /** The field validators the forms use. `EqualTo` carries the other field's
      data; the two e-mail lookups consult the store. */
  datatype Validator =
    | Required(key: MessageKey)
    | EmailFormat(key: MessageKey)
    | Length(min: nat, max: nat, key: MessageKey)
    | EqualTo(other: string, key: MessageKey)
    | UniqueUserEmail
    | ValidUserEmail

  /** What one validator does to the chain: nothing, a `ValidationError`
      (recorded, the chain goes on), or a `StopValidation` (the chain ends). */
  datatype Step = Pass | Fail(key: MessageKey) | Stop(key: MessageKey)

  function Check(v: Validator, data: string, s: Store, ext: Capabilities): Step {
    match v
    // `Required`: no data, or text that is only whitespace
    case Required(k) => if IsBlank(data) then Stop(k) else Pass
    case EmailFormat(k) => if ext.isEmail(data) then Pass else Fail(k)
    case Length(lo, hi, k) => if |data| < lo || |data| > hi then Fail(k) else Pass
    case EqualTo(other, k) => if data != other then Fail(k) else Pass
    // `unique_user_email`: the e-mail is already in use
    case UniqueUserEmail => if GetUser(s, data).Some? then Fail(EmailAlreadyAssociated) else Pass
    // `valid_user_email`: the e-mail belongs to no user
    case ValidUserEmail => if GetUser(s, data).None? then Fail(UserDoesNotExist) else Pass
  }

  predicate AllPass(vs: seq<Validator>, data: string, s: Store, ext: Capabilities) {
    forall i | 0 <= i < |vs| :: Check(vs[i], data, s, ext).Pass?
  }

  lemma AllPassOne(a: Validator, data: string, s: Store, ext: Capabilities)
    ensures AllPass([a], data, s, ext) <==> Check(a, data, s, ext).Pass?
  {
    assert [a][0] == a;
  }

  lemma AllPassTwo(a: Validator, b: Validator, data: string, s: Store, ext: Capabilities)
    ensures AllPass([a, b], data, s, ext) <==> Check(a, data, s, ext).Pass? && Check(b, data, s, ext).Pass?
  {
    assert [a, b][0] == a && [a, b][1] == b;
  }

  lemma AllPassThree(a: Validator, b: Validator, c: Validator, data: string, s: Store, ext: Capabilities)
    ensures AllPass([a, b, c], data, s, ext) <==>
      Check(a, data, s, ext).Pass? && Check(b, data, s, ext).Pass? && Check(c, data, s, ext).Pass?
  {
    assert [a, b, c][0] == a && [a, b, c][1] == b && [a, b, c][2] == c;
  }

  /** WTForms' validation chain for one field, after errors `acc` were already
      recorded. A `StopValidation` replaces everything recorded with its own
      message (`Required` clears the field's errors before raising). */
  function RunChain(vs: seq<Validator>, data: string, s: Store, ext: Capabilities, acc: seq<MessageKey>): (errs: seq<MessageKey>)
    ensures errs == [] <==> acc == [] && AllPass(vs, data, s, ext)
    ensures |vs| > 0 && Check(vs[0], data, s, ext).Stop? ==> errs == [Check(vs[0], data, s, ext).key]
    ensures acc <= errs || |errs| == 1
    decreases |vs|
  {
    if |vs| == 0 then acc
    else
      match Check(vs[0], data, s, ext)
      case Pass => RunChain(vs[1..], data, s, ext, acc)
      case Fail(k) => RunChain(vs[1..], data, s, ext, acc + [k])
      case Stop(k) => [k]
  }

  /** Without a `StopValidation`, every failing validator's message is
      recorded, after what was recorded before. */
  lemma {:induction false} FailRecorded(vs: seq<Validator>, data: string, s: Store, ext: Capabilities,
                                        acc: seq<MessageKey>, i: nat)
    requires i < |vs| && Check(vs[i], data, s, ext).Fail?
    requires forall j | 0 <= j < |vs| :: !Check(vs[j], data, s, ext).Stop?
    ensures Check(vs[i], data, s, ext).key in RunChain(vs, data, s, ext, acc)
    decreases |vs|
  {
    var rest := vs[1..];
    assert forall j | 0 <= j < |rest| :: rest[j] == vs[j + 1];
    if i == 0 {
      var k := Check(vs[0], data, s, ext).key;
      assert RunChain(vs, data, s, ext, acc) == RunChain(rest, data, s, ext, acc + [k]);
      KeptRecorded(rest, data, s, ext, acc + [k]);
      assert (acc + [k])[|acc|] == k;
    } else {
      match Check(vs[0], data, s, ext)
      case Pass => FailRecorded(rest, data, s, ext, acc, i - 1);
      case Fail(k) => FailRecorded(rest, data, s, ext, acc + [k], i - 1);
    }
  }

  lemma {:induction false} KeptRecorded(vs: seq<Validator>, data: string, s: Store, ext: Capabilities, acc: seq<MessageKey>)
    requires forall j | 0 <= j < |vs| :: !Check(vs[j], data, s, ext).Stop?
    ensures acc <= RunChain(vs, data, s, ext, acc)
    decreases |vs|
  {
    if |vs| > 0 {
      var rest := vs[1..];
      assert forall j | 0 <= j < |rest| :: rest[j] == vs[j + 1];
      match Check(vs[0], data, s, ext)
      case Pass => KeptRecorded(rest, data, s, ext, acc);
      case Fail(k) => KeptRecorded(rest, data, s, ext, acc + [k]);
    }
  }

  /** The errors one field's chain records, tagged with the field. */
  function FieldErrors(field: FieldName, vs: seq<Validator>, data: string, s: Store, ext: Capabilities): (errs: seq<FieldError>)
    ensures errs == [] <==> AllPass(vs, data, s, ext)
    ensures forall i | 0 <= i < |errs| :: errs[i].field == field
  {
    var keys := RunChain(vs, data, s, ext, []);
    seq(|keys|, i requires 0 <= i < |keys| => FieldError(field, keys[i]))
  }

  /** The CSRF field's error, when the token does not check out. */
  function CsrfErrors(csrfOk: bool): seq<FieldError> {
    if csrfOk then [] else [FieldError(CsrfToken, CsrfFailed)]
  }

  /** The outcome of `form.validate()`, and the user the form looked up. */
  datatype FormResult = FormResult(valid: bool, errors: seq<FieldError>, user: Option<User>)

  /** A form result in which `valid` means "no errors". */
  predicate Consistent(r: FormResult) {
    r.valid <==> r.errors == []
  }

  function Invalid(errors: seq<FieldError>, user: Option<User>): FormResult {
    FormResult(false, errors, user)
  }

  const EmailRequired: Validator := Required(EmailNotProvided)
  const EmailValidator: Validator := EmailFormat(InvalidEmailAddress)
  const PasswordRequired: Validator := Required(PasswordNotProvided)
  /** `password_length`: between 6 and 128 characters. */
  const PasswordLength: Validator := Length(6, 128, PasswordInvalidLength)

  /** `NewPasswordFormMixin`'s chain accepts exactly the non-blank passwords of
      6 to 128 characters; a blank one is reported as not provided only. */
  lemma NewPasswordChain(p: string, s: Store, ext: Capabilities)
    ensures FieldErrors(Password, [PasswordRequired, PasswordLength], p, s, ext) == [] <==>
      !IsBlank(p) && 6 <= |p| <= 128
    ensures IsBlank(p) ==>
      FieldErrors(Password, [PasswordRequired, PasswordLength], p, s, ext) == [FieldError(Password, PasswordNotProvided)]
  {
    AllPassTwo(PasswordRequired, PasswordLength, p, s, ext);
  }

  // ---- LoginForm ----

  /** The submitted login form: e-mail, password, the `next` field (and
      whether the redirect check accepts it), and whether the CSRF token holds. */
  datatype LoginData = LoginData(email: string, password: string, next: string, nextIsSafe: bool, csrfOk: bool)

  /** `NextFormMixin.validate_next`: a non-empty `next` must be a safe redirect. */
  function NextErrors(d: LoginData): seq<FieldError> {
    if d.next != "" && !d.nextIsSafe then [FieldError(Next, InvalidRedirect)] else []
  }

  /** The conditions under which a login is accepted, independent of the order
      in which they are checked. */
  predicate LoginAccepted(s: Store, d: LoginData, ext: Capabilities) {
    && NextErrors(d) == [] && d.csrfOk
    && !IsBlank(d.email) && !IsBlank(d.password)
    && GetUser(s, d.email).Some?
    && var u := GetUser(s, d.email).value;
       u.password != "" && ext.verify(d.password, u.password) && !ext.requiresConfirmation(u) && u.active
  }

  /** The login passed the base validation and both fields hold text, so the
      user is looked up. */
  predicate LoginLooksUp(d: LoginData) {
    NextErrors(d) == [] && d.csrfOk && !IsBlank(d.email) && !IsBlank(d.password)
  }

  /** `LoginForm.validate`: the base validation, then blank e-mail, blank
      password, unknown user, no password set, wrong password, confirmation
      required, disabled account; the first failure records its one error,
      on the field the source appends it to. */
  function LoginValidate(s: Store, d: LoginData, ext: Capabilities): (r: FormResult)
    ensures Consistent(r)
    ensures r.valid <==> LoginAccepted(s, d, ext)
    ensures NextErrors(d) + CsrfErrors(d.csrfOk) == [] && !r.valid ==> |r.errors| == 1
    ensures r.valid ==> r.user == GetUser(s, d.email) && r.user.Some?
    ensures NextErrors(d) + CsrfErrors(d.csrfOk) != [] ==> r.errors == NextErrors(d) + CsrfErrors(d.csrfOk)
    ensures NextErrors(d) == [] && d.csrfOk && IsBlank(d.email) ==>
      r.errors == [FieldError(Email, EmailNotProvided)]
    ensures NextErrors(d) == [] && d.csrfOk && !IsBlank(d.email) && IsBlank(d.password) ==>
      r.errors == [FieldError(Password, PasswordNotProvided)]
    ensures LoginLooksUp(d) && GetUser(s, d.email).None? ==>
      r.errors == [FieldError(Email, UserDoesNotExist)]
    ensures LoginLooksUp(d) && GetUser(s, d.email).Some? ==>
      var u := GetUser(s, d.email).value;
      && r.user == Some(u)
      && (u.password == "" ==> r.errors == [FieldError(Password, PasswordNotSet)])
      && (u.password != "" && !ext.verify(d.password, u.password) ==>
            r.errors == [FieldError(Password, InvalidPassword)])
      && (u.password != "" && ext.verify(d.password, u.password) && ext.requiresConfirmation(u) ==>
            r.errors == [FieldError(Email, ConfirmationRequired)])
      && (u.password != "" && ext.verify(d.password, u.password) && !ext.requiresConfirmation(u) && !u.active ==>
            r.errors == [FieldError(Email, DisabledAccount)])
  {
    var base := NextErrors(d) + CsrfErrors(d.csrfOk);
    if base != [] then Invalid(base, None)
    else if IsBlank(d.email) then Invalid([FieldError(Email, EmailNotProvided)], None)
    else if IsBlank(d.password) then Invalid([FieldError(Password, PasswordNotProvided)], None)
    else
      match GetUser(s, d.email)
      case None => Invalid([FieldError(Email, UserDoesNotExist)], None)
      case Some(u) =>
        if u.password == "" then Invalid([FieldError(Password, PasswordNotSet)], Some(u))
        else if !ext.verify(d.password, u.password) then Invalid([FieldError(Password, InvalidPassword)], Some(u))
        else if ext.requiresConfirmation(u) then Invalid([FieldError(Email, ConfirmationRequired)], Some(u))
        else if !u.active then Invalid([FieldError(Email, DisabledAccount)], Some(u))
        else FormResult(true, [], Some(u))
  }

  /** The password is checked before the account's state: a wrong password
      is reported as such whether or not the account is confirmed or active,
      so the answer reveals nothing about the account to a wrong password. */
  lemma LoginPasswordBeforeAccountState(s: Store, d: LoginData, ext: Capabilities)
    requires NextErrors(d) == [] && d.csrfOk && !IsBlank(d.email) && !IsBlank(d.password)
    requires GetUser(s, d.email).Some? && GetUser(s, d.email).value.password != ""
    requires !ext.verify(d.password, GetUser(s, d.email).value.password)
    ensures LoginValidate(s, d, ext).errors == [FieldError(Password, InvalidPassword)]
  {
  }

  // ---- ChangePasswordForm ----

  datatype ChangePasswordData = ChangePasswordData(password: string, newPassword: string, newPasswordConfirm: string, csrfOk: bool)

  /** The errors of the form's fields: the current password is required, the
      new one is required and 6 to 128 long, and the retyped one must match. */
  function ChangePasswordFieldErrors(s: Store, d: ChangePasswordData, ext: Capabilities): seq<FieldError> {
    FieldErrors(Password, [PasswordRequired], d.password, s, ext)
    + FieldErrors(NewPassword, [PasswordRequired, PasswordLength], d.newPassword, s, ext)
    + FieldErrors(NewPasswordConfirm, [EqualTo(d.newPassword, RetypePasswordMismatch)], d.newPasswordConfirm, s, ext)
    + CsrfErrors(d.csrfOk)
  }

  /** `ChangePasswordForm.validate` for the logged-in `current` user: the field
      chains, then the current password must verify, then the new password
      must differ from it once surrounding whitespace is ignored. */
  function ChangePasswordValidate(s: Store, d: ChangePasswordData, current: User, ext: Capabilities): (r: FormResult)
    ensures Consistent(r)
    ensures r.valid <==>
      && d.csrfOk && !IsBlank(d.password)
      && !IsBlank(d.newPassword) && 6 <= |d.newPassword| <= 128
      && d.newPasswordConfirm == d.newPassword
      && ext.verify(d.password, current.password)
      && Strip(d.password) != Strip(d.newPassword)
    ensures ChangePasswordFieldErrors(s, d, ext) == [] && !ext.verify(d.password, current.password) ==>
      r.errors == [FieldError(Password, InvalidPassword)]
    ensures ChangePasswordFieldErrors(s, d, ext) == [] && ext.verify(d.password, current.password)
            && Strip(d.password) == Strip(d.newPassword) ==>
      r.errors == [FieldError(Password, PasswordIsTheSame)]
  {
    var base := ChangePasswordFieldErrors(s, d, ext);
    NewPasswordChain(d.newPassword, s, ext);
    AllPassOne(PasswordRequired, d.password, s, ext);
    AllPassOne(EqualTo(d.newPassword, RetypePasswordMismatch), d.newPasswordConfirm, s, ext);
    if base != [] then Invalid(base, None)
    else if !ext.verify(d.password, current.password) then Invalid([FieldError(Password, InvalidPassword)], None)
    else if Strip(d.password) == Strip(d.newPassword) then Invalid([FieldError(Password, PasswordIsTheSame)], None)
    else FormResult(true, [], None)
  }

  // ---- forms on a registered user's e-mail ----

  datatype EmailData = EmailData(email: string, csrfOk: bool)

  /** `UserEmailFormMixin`'s e-mail chain: required, well-formed, and owned by
      a user. */
  function UserEmailErrors(s: Store, d: EmailData, ext: Capabilities): seq<FieldError> {
    FieldErrors(Email, [EmailRequired, EmailValidator, ValidUserEmail], d.email, s, ext) + CsrfErrors(d.csrfOk)
  }

  /** An unknown, non-blank e-mail is already reported by the chain. */
  lemma UnknownEmailReported(s: Store, d: EmailData, ext: Capabilities)
    requires !IsBlank(d.email) && GetUser(s, d.email).None?
    ensures FieldError(Email, UserDoesNotExist) in UserEmailErrors(s, d, ext)
  {
    var vs := [EmailRequired, EmailValidator, ValidUserEmail];
    FailRecorded(vs, d.email, s, ext, [], 2);
    var keys := RunChain(vs, d.email, s, ext, []);
    var k :| 0 <= k < |keys| && keys[k] == UserDoesNotExist;
    assert UserEmailErrors(s, d, ext)[k] == FieldError(Email, UserDoesNotExist);
  }

  /** `SendConfirmationForm.validate`: the chain, then the user must exist and
      must not be confirmed yet. */
  function SendConfirmationValidate(s: Store, d: EmailData, ext: Capabilities): (r: FormResult)
    ensures Consistent(r)
    ensures r.valid <==>
      d.csrfOk && !IsBlank(d.email) && ext.isEmail(d.email)
      && GetUser(s, d.email).Some? && GetUser(s, d.email).value.confirmedAt.None?
    ensures UserEmailErrors(s, d, ext) == [] && GetUser(s, d.email).Some? && GetUser(s, d.email).value.confirmedAt.Some? ==>
      r.errors == [FieldError(Email, AlreadyConfirmed)]
    ensures r.valid ==> r.user == GetUser(s, d.email)
  {
    var base := UserEmailErrors(s, d, ext);
    AllPassThree(EmailRequired, EmailValidator, ValidUserEmail, d.email, s, ext);
    if base != [] then Invalid(base, None)
    else
      match GetUser(s, d.email)
      case None => Invalid([FieldError(Email, UserDoesNotExist)], None)
      case Some(u) =>
        if u.confirmedAt.Some? then Invalid([FieldError(Email, AlreadyConfirmed)], Some(u))
        else FormResult(true, [], Some(u))
  }

  /** `PasswordlessForm.validate`: the chain, then the user must exist and be
      active. */
  function PasswordlessValidate(s: Store, d: EmailData, ext: Capabilities): (r: FormResult)
    ensures Consistent(r)
    ensures r.valid <==>
      d.csrfOk && !IsBlank(d.email) && ext.isEmail(d.email)
      && GetUser(s, d.email).Some? && GetUser(s, d.email).value.active
    ensures UserEmailErrors(s, d, ext) == [] && GetUser(s, d.email).Some? && !GetUser(s, d.email).value.active ==>
      r.errors == [FieldError(Email, DisabledAccount)]
    ensures r.valid ==> r.user == GetUser(s, d.email)
  {
    var base := UserEmailErrors(s, d, ext);
    AllPassThree(EmailRequired, EmailValidator, ValidUserEmail, d.email, s, ext);
    if base != [] then Invalid(base, None)
    else
      match GetUser(s, d.email)
      case None => Invalid([FieldError(Email, UserDoesNotExist)], None)
      case Some(u) =>
        if !u.active then Invalid([FieldError(Email, DisabledAccount)], Some(u))
        else FormResult(true, [], Some(u))
  }

  /** `ForgotPasswordForm`: only the e-mail chain; the user is the one
      `valid_user_email` found. */
  function ForgotPasswordValidate(s: Store, d: EmailData, ext: Capabilities): (r: FormResult)
    ensures Consistent(r)
    ensures r.valid <==> d.csrfOk && !IsBlank(d.email) && ext.isEmail(d.email) && GetUser(s, d.email).Some?
    ensures r.valid ==> r.user == GetUser(s, d.email)
  {
    var base := UserEmailErrors(s, d, ext);
    AllPassThree(EmailRequired, EmailValidator, ValidUserEmail, d.email, s, ext);
    FormResult(base == [], base, if IsBlank(d.email) then None else GetUser(s, d.email))
  }

  // ---- registration and reset forms ----

  /** A registration; `passwordConfirm` is absent for `ConfirmRegisterForm`
      and present for `RegisterForm`, which adds the retype field. */
  datatype RegisterData = RegisterData(email: string, password: string, passwordConfirm: Option<string>, csrfOk: bool)

  /** `ConfirmRegisterForm` / `RegisterForm` validation: a required,
      well-formed e-mail not yet in use, a required password of 6 to 128
      characters, and for `RegisterForm` a matching retyped password. */
  function RegisterValidate(s: Store, d: RegisterData, ext: Capabilities): (r: FormResult)
    ensures Consistent(r)
    ensures r.valid <==>
      && d.csrfOk && !IsBlank(d.email) && ext.isEmail(d.email) && GetUser(s, d.email).None?
      && !IsBlank(d.password) && 6 <= |d.password| <= 128
      && (d.passwordConfirm.Some? ==> d.passwordConfirm.value == d.password)
  {
    NewPasswordChain(d.password, s, ext);
    AllPassThree(EmailRequired, EmailValidator, UniqueUserEmail, d.email, s, ext);
    AllPassOne(EqualTo(d.password, RetypePasswordMismatch), d.passwordConfirm.GetOr(""), s, ext);
    var errors :=
      FieldErrors(Email, [EmailRequired, EmailValidator, UniqueUserEmail], d.email, s, ext)
      + FieldErrors(Password, [PasswordRequired, PasswordLength], d.password, s, ext)
      + (match d.passwordConfirm
         case None => []
         case Some(c) => FieldErrors(PasswordConfirm, [EqualTo(d.password, RetypePasswordMismatch)], c, s, ext))
      + CsrfErrors(d.csrfOk);
    FormResult(errors == [], errors, None)
  }

  /** An e-mail already in the store is refused with `EMAIL_ALREADY_ASSOCIATED`. */
  lemma RegisterRejectsTakenEmail(s: Store, d: RegisterData, ext: Capabilities)
    requires !IsBlank(d.email) && GetUser(s, d.email).Some?
    ensures FieldError(Email, EmailAlreadyAssociated) in RegisterValidate(s, d, ext).errors
  {
    var vs := [EmailRequired, EmailValidator, UniqueUserEmail];
    FailRecorded(vs, d.email, s, ext, [], 2);
    var keys := RunChain(vs, d.email, s, ext, []);
    var k :| 0 <= k < |keys| && keys[k] == EmailAlreadyAssociated;
    var fe := FieldErrors(Email, vs, d.email, s, ext);
    assert fe[k] == FieldError(Email, EmailAlreadyAssociated);
    assert RegisterValidate(s, d, ext).errors[k] == fe[k];
  }

  datatype ResetPasswordData = ResetPasswordData(password: string, passwordConfirm: string, csrfOk: bool)

  /** `ResetPasswordForm` validation: a required password of 6 to 128
      characters, retyped identically. */
  function ResetPasswordValidate(s: Store, d: ResetPasswordData, ext: Capabilities): (r: FormResult)
    ensures Consistent(r)
    ensures r.valid <==> d.csrfOk && !IsBlank(d.password) && 6 <= |d.password| <= 128 && d.passwordConfirm == d.password
  {
    NewPasswordChain(d.password, s, ext);
    AllPassOne(EqualTo(d.password, RetypePasswordMismatch), d.passwordConfirm, s, ext);
    var errors :=
      FieldErrors(Password, [PasswordRequired, PasswordLength], d.password, s, ext)
      + FieldErrors(PasswordConfirm, [EqualTo(d.password, RetypePasswordMismatch)], d.passwordConfirm, s, ext)
      + CsrfErrors(d.csrfOk);
    FormResult(errors == [], errors, None)
  }

  // ---- SecurityForm._ctx_tag ----

  /** `str.isupper()` on one ASCII character. */
  predicate IsUpperAscii(c: char) {
    'A' <= c <= 'Z'
  }

  /** Each capital becomes `_` and its lower-case letter; other characters stay. */
  function TagChars(s: string): (t: string)
    ensures forall i | 0 <= i < |t| :: !IsUpperAscii(t[i])
    ensures |s| > 0 && !IsUpperAscii(s[0]) ==> |t| > 0 && t[0] == s[0]
  {
    if |s| == 0 then []
    else (if IsUpperAscii(s[0]) then ['_', LowerChar(s[0])] else [s[0]]) + TagChars(s[1..])
  }

  /** `s.strip('_')`. */
  function StripUnderscores(s: string): (t: string)
    ensures |t| <= |s|
    ensures forall i | 0 <= i < |t| :: t[i] in s
    ensures t != [] ==> t[0] != '_' && t[|t| - 1] != '_'
    ensures s != [] && s[0] != '_' && s[|s| - 1] != '_' ==> t == s
  {
    if |s| > 0 && s[0] == '_' then StripUnderscores(s[1..])
    else if |s| > 0 && s[|s| - 1] == '_' then StripUnderscores(s[..|s| - 1])
    else s
  }

  /** `_ctx_tag`: the class name without its last four characters (`Form`),
      each capital turned into `_` plus its lower-case letter, and outer
      underscores stripped. */
  function CtxTag(className: string): (tag: string)
    ensures forall i | 0 <= i < |tag| :: !IsUpperAscii(tag[i])
    ensures tag != [] ==> tag[0] != '_' && tag[|tag| - 1] != '_'
  {
    var stem := if |className| >= 4 then className[..|className| - 4] else [];
    StripUnderscores(TagChars(stem))
  }

  lemma {:induction false} TagCharsAppend(a: string, b: string)
    ensures TagChars(a + b) == TagChars(a) + TagChars(b)
    decreases |a|
  {
    if |a| > 0 {
      assert (a + b)[0] == a[0];
      assert (a + b)[1..] == a[1..] + b;
      TagCharsAppend(a[1..], b);
    } else {
      assert a + b == b;
    }
  }

  lemma {:induction false} TagCharsPlain(w: string)
    requires forall i | 0 <= i < |w| :: !IsUpperAscii(w[i])
    ensures TagChars(w) == w
    decreases |w|
  {
    if |w| > 0 {
      TagCharsPlain(w[1..]);
    }
  }

  /** A class-name word: a capital followed by characters that are neither
      capitals nor underscores. */
  predicate Capitalized(w: string) {
    |w| > 0 && IsUpperAscii(w[0]) && forall i | 1 <= i < |w| :: !IsUpperAscii(w[i]) && w[i] != '_'
  }

  /** The words run together, as in a class name. */
  function Concat(ws: seq<string>): string {
    if |ws| == 0 then [] else ws[0] + Concat(ws[1..])
  }

  /** The words lower-cased and joined by underscores. */
  function SnakeJoin(ws: seq<string>): string {
    if |ws| == 0 then []
    else if |ws| == 1 then Lower(ws[0])
    else Lower(ws[0]) + "_" + SnakeJoin(ws[1..])
  }

  lemma TagCharsCapital(c: char)
    requires IsUpperAscii(c)
    ensures TagChars([c]) == ['_', LowerChar(c)]
  {
    assert [c][1..] == [];
  }

  lemma LowerCapitalized(w: string)
    requires Capitalized(w)
    ensures Lower(w) == [LowerChar(w[0])] + w[1..]
  {
    var l := Lower(w);
    var r := [LowerChar(w[0])] + w[1..];
    assert |l| == |r|;
    forall i | 0 <= i < |l| ensures l[i] == r[i] {
      if i > 0 {
        assert r[i] == w[i];
        assert !IsUpperAscii(w[i]);
      }
    }
  }

  lemma TagCharsWord(w: string)
    requires Capitalized(w)
    ensures TagChars(w) == "_" + Lower(w)
  {
    var rest := w[1..];
    assert forall i | 0 <= i < |rest| :: !IsUpperAscii(rest[i]) by {
      forall i | 0 <= i < |rest| ensures !IsUpperAscii(rest[i]) {
        assert rest[i] == w[i + 1];
      }
    }
    calc {
      TagChars(w);
      { assert w == [w[0]] + rest; }
      TagChars([w[0]] + rest);
      { TagCharsAppend([w[0]], rest); }
      TagChars([w[0]]) + TagChars(rest);
      { TagCharsCapital(w[0]); TagCharsPlain(rest); }
      ['_', LowerChar(w[0])] + rest;
      { LowerCapitalized(w); }
      "_" + Lower(w);
    }
  }

  lemma LowerCapitalizedEnds(w: string)
    requires Capitalized(w)
    ensures Lower(w) != [] && Lower(w)[0] != '_' && Lower(w)[|w| - 1] != '_'
  {
    assert Lower(w)[0] == LowerChar(w[0]);
    assert Lower(w)[|w| - 1] == LowerChar(w[|w| - 1]);
  }

  lemma {:induction false} TagCharsWords(ws: seq<string>)
    requires |ws| > 0 && forall i | 0 <= i < |ws| :: Capitalized(ws[i])
    ensures TagChars(Concat(ws)) == "_" + SnakeJoin(ws)
    ensures SnakeJoin(ws) != [] && SnakeJoin(ws)[0] != '_' && SnakeJoin(ws)[|SnakeJoin(ws)| - 1] != '_'
    decreases |ws|
  {
    var w := ws[0];
    TagCharsWord(w);
    LowerCapitalizedEnds(w);
    if |ws| == 1 {
      assert ws[1..] == [];
      assert Concat(ws[1..]) == [];
      assert w + [] == w;
      assert Concat(ws) == w;
    } else {
      var rest := ws[1..];
      assert forall i | 0 <= i < |rest| :: Capitalized(rest[i]) by {
        forall i | 0 <= i < |rest| ensures Capitalized(rest[i]) {
          assert rest[i] == ws[i + 1];
        }
      }
      TagCharsWords(rest);
      var sr := SnakeJoin(rest);
      calc {
        TagChars(Concat(ws));
        TagChars(w + Concat(rest));
        { TagCharsAppend(w, Concat(rest)); }
        TagChars(w) + TagChars(Concat(rest));
        ("_" + Lower(w)) + ("_" + sr);
        "_" + (Lower(w) + "_" + sr);
      }
      assert SnakeJoin(ws) == Lower(w) + "_" + sr;
      assert SnakeJoin(ws)[0] == Lower(w)[0];
      assert SnakeJoin(ws)[|SnakeJoin(ws)| - 1] == sr[|sr| - 1];
    }
  }

  /** For a class name made of capitalised words and ending in `Form`, the
      tag is the words in lower case joined by underscores. */
  lemma CtxTagOfCamelCase(ws: seq<string>)
    requires |ws| > 0 && forall i | 0 <= i < |ws| :: Capitalized(ws[i])
    ensures CtxTag(Concat(ws) + "Form") == SnakeJoin(ws)
  {
    var name := Concat(ws) + "Form";
    assert name[..|name| - 4] == Concat(ws);
    TagCharsWords(ws);
    var x := SnakeJoin(ws);
    assert ("_" + x)[1..] == x;
  }
}
