/** The password-reset token lifecycle: lookup by token, issuing a fresh
    token, the expiry test, and resetting the password with a token. */
module Recoverable {
  import opened Wrappers
  import opened Users
  import opened Exceptions
  import opened External
  import opened Datastore

  /** `find_user_by_reset_token`: a missing or empty token is refused before
      any lookup; otherwise the first user holding the token. */
  function FindUserByResetToken(s: Store, token: Option<string>): (r: Result<User, Exception>)
    ensures token.None? || token == Some("") ==> r == Err(ResetPasswordError("Reset password token required"))
    ensures token.Some? && token != Some("") ==>
      (r.Ok? <==> exists u | u in s.users :: u.resetPasswordToken == token)
    ensures token.Some? && token != Some("") && r.Err? ==> r.error == UserNotFoundError
    ensures r.Ok? ==> r.value in s.users && r.value.resetPasswordToken == token
  {
    if token.None? || token.value == "" then Err(ResetPasswordError("Reset password token required"))
    else FindUser(s, ByResetPasswordToken(token))
  }

  /** No token is held by two stored users. */
  predicate UniqueResetTokens(s: Store) {
    forall i, j | 0 <= i < j < |s.users| && s.users[i].resetPasswordToken.Some? ::
      s.users[i].resetPasswordToken != s.users[j].resetPasswordToken
  }

  /** `generate_reset_password_token(user)`: draws tokens from `candidates`
      (the successive values of the token generator) until one is held by no
      user, then stores it on the user with `sent_at = now`. An empty candidate
      makes the lookup raise, which the loop does not catch. The generator is
      assumed to produce, at some point, a token the lookup does not find. */
  method GenerateResetPasswordToken(s: Store, user: User, candidates: seq<string>, now: int)
    returns (r: Result<User, Exception>)
    requires exists k | 0 <= k < |candidates| :: FindUserByResetToken(s, Some(candidates[k])).Err?
    ensures r.Ok? ==>
      && r.value == user.(resetPasswordToken := r.value.resetPasswordToken, resetPasswordSentAt := Some(now))
      && r.value.resetPasswordToken.Some?
      && r.value.resetPasswordToken.value != ""
      && r.value.resetPasswordToken.value in candidates
      && (forall u | u in s.users :: u.resetPasswordToken != r.value.resetPasswordToken)
    ensures r.Err? ==> r == Err(ResetPasswordError("Reset password token required")) && "" in candidates
    ensures r.Ok? ==> exists k | 0 <= k < |candidates| ::
      && r.value.resetPasswordToken == Some(candidates[k])
      && forall j | 0 <= j < k :: FindUserByResetToken(s, Some(candidates[j])).Ok?
    ensures forall k | 0 <= k < |candidates| && candidates[k] != "" &&
      (forall u | u in s.users :: u.resetPasswordToken != Some(candidates[k])) ::
      r.Ok? || exists j | 0 <= j < k :: candidates[j] == ""
  {
    var k := 0;
    while k < |candidates|
      invariant 0 <= k <= |candidates|
      invariant forall j | 0 <= j < k :: FindUserByResetToken(s, Some(candidates[j])).Ok?
      invariant exists m | k <= m < |candidates| :: FindUserByResetToken(s, Some(candidates[m])).Err?
    {
      var found := FindUserByResetToken(s, Some(candidates[k]));
      if found.Err? {
        if found.error == UserNotFoundError {
          return Ok(user.(resetPasswordToken := Some(candidates[k]), resetPasswordSentAt := Some(now)));
        }
        return found;
      }
      k := k + 1;
    }
    r := Err(ResetPasswordError("Reset password token required"));
  }

  /** Saving a user keeps reset tokens unique when the saved user's token,
      if any, is held by no other stored user. */
  lemma SaveKeepsUniqueResetTokens(s: Store, u: User)
    requires WellFormed(s) && UniqueResetTokens(s)
    requires u.resetPasswordToken.None? ||
             forall v | v in s.users && v.id != u.id :: v.resetPasswordToken != u.resetPasswordToken
    ensures UniqueResetTokens(Save(s, u))
  {
    var s1 := Save(s, u);
    match UserIndex(s.users, ById(u.id))
    case Some(i) =>
      SaveStored(s, i, u);
      forall a, b | 0 <= a < b < |s1.users| && s1.users[a].resetPasswordToken.Some?
        ensures s1.users[a].resetPasswordToken != s1.users[b].resetPasswordToken
      {
        if a == i {
          assert s.users[b].id != u.id && s.users[b] in s.users;
        } else if b == i {
          assert s.users[a].id != u.id && s.users[a] in s.users;
        }
      }
    case None =>
      assert s1.users == s.users + [u];
      forall a, b | 0 <= a < b < |s1.users| && s1.users[a].resetPasswordToken.Some?
        ensures s1.users[a].resetPasswordToken != s1.users[b].resetPasswordToken
      {
        if b == |s.users| {
          assert s.users[a].id != u.id && s.users[a] in s.users;
        }
      }
  }

  /** Writing back a stored user with its token unchanged (role changes,
      activation toggles) keeps reset tokens unique. */
  lemma ResaveKeepsUniqueResetTokens(s: Store, i: nat, u: User)
    requires WellFormed(s) && UniqueResetTokens(s)
    requires i < |s.users| && s.users[i].id == u.id && s.users[i].resetPasswordToken == u.resetPasswordToken
    ensures UniqueResetTokens(Save(s, u))
  {
    if u.resetPasswordToken.Some? {
      forall v | v in s.users && v.id != u.id
        ensures v.resetPasswordToken != u.resetPasswordToken
      {
        var j :| 0 <= j < |s.users| && s.users[j] == v;
        assert j != i;
      }
    }
    SaveKeepsUniqueResetTokens(s, u);
  }

  /** A newly created user holds no reset token, so adding one keeps reset
      tokens unique. */
  lemma AddTokenlessKeepsUniqueResetTokens(s: Store, u: User, nextId: nat)
    requires UniqueResetTokens(s) && u.resetPasswordToken.None?
    ensures UniqueResetTokens(s.(users := s.users + [u], nextId := nextId))
  {
    var users := s.users + [u];
    forall a, b | 0 <= a < b < |users| && users[a].resetPasswordToken.Some?
      ensures users[a].resetPasswordToken != users[b].resetPasswordToken
    {
      if b < |s.users| {
        assert users[a] == s.users[a] && users[b] == s.users[b];
      }
    }
  }

  /** `password_reset_token_is_expired`: `sent_at < now - within`. With no
      `sent_at` the comparison of `None` with a datetime raises `TypeError`. */
  function IsExpired(sentAt: Option<int>, now: int, within: int): (r: Result<bool, Exception>)
    ensures sentAt.None? <==> r.Err?
    ensures r.Err? ==> r.error.TypeError?
    ensures r.Ok? ==> (r.value <==> now - sentAt.value > within)
  {
    match sentAt
    case None => Err(TypeError("can't compare datetime.datetime to NoneType"))
    case Some(t) => Ok(t < now - within)
  }

  /** A token sent exactly `within` ago is still valid; one sent a microsecond
      earlier has expired. */
  lemma ExpiryBoundary(sentAt: int, within: int)
    ensures IsExpired(Some(sentAt), sentAt + within, within) == Ok(false)
    ensures IsExpired(Some(sentAt), sentAt + within + 1, within) == Ok(true)
  {
  }

  /** Time only runs towards expiry: an expired token stays expired. */
  lemma ExpiryMonotone(sentAt: int, now: int, later: int, within: int)
    requires now <= later
    requires IsExpired(Some(sentAt), now, within) == Ok(true)
    ensures IsExpired(Some(sentAt), later, within) == Ok(true)
  {
  }

  /** `reset_by_token(token, email, password)`: an unknown token is invalid,
      checked before expiry; an expired token raises `TokenExpiredError`
      carrying the unchanged user; otherwise the token and its time are
      cleared, the new password is hashed and the user is saved. The `email`
      argument is not consulted. */
  function ResetByToken(s: Store, token: Option<string>, email: string, password: string,
                        now: int, within: int, ext: Capabilities): (r: Result<(Store, User), Exception>)
    ensures FindUserByResetToken(s, token).Err? ==>
      r.Err? && r.error == (if FindUserByResetToken(s, token).error == UserNotFoundError
                            then ResetPasswordError("Invalid reset password token")
                            else FindUserByResetToken(s, token).error)
    ensures FindUserByResetToken(s, token).Ok? ==>
      var u := FindUserByResetToken(s, token).value;
      && (IsExpired(u.resetPasswordSentAt, now, within) == Ok(true) ==>
            r == Err(TokenExpiredError("Reset password token is expired", u)))
      && (r.Ok? <==> IsExpired(u.resetPasswordSentAt, now, within) == Ok(false))
    ensures r.Ok? ==>
      var u := FindUserByResetToken(s, token).value;
      && r.value.1 == u.(resetPasswordToken := None, resetPasswordSentAt := None, password := ext.encrypt(password))
      && r.value.0 == Save(s, r.value.1)
  {
    match FindUserByResetToken(s, token)
    case Err(e) =>
      if e == UserNotFoundError then Err(ResetPasswordError("Invalid reset password token")) else Err(e)
    case Ok(u) =>
      match IsExpired(u.resetPasswordSentAt, now, within)
      case Err(e) => Err(e)
      case Ok(expired) =>
        if expired then Err(TokenExpiredError("Reset password token is expired", u))
        else
          var updated := u.(resetPasswordToken := None, resetPasswordSentAt := None, password := ext.encrypt(password));
          Ok((Save(s, updated), updated))
  }

  /** The e-mail sent with the reset request plays no part in it. */
  lemma ResetIgnoresEmail(s: Store, token: Option<string>, e1: string, e2: string, password: string,
                          now: int, within: int, ext: Capabilities)
    ensures ResetByToken(s, token, e1, password, now, within, ext) == ResetByToken(s, token, e2, password, now, within, ext)
  {
  }

  /** A reset token is single-use: once a reset succeeded, the same token is
      refused as invalid, whatever the password and the time. */
  lemma {:induction false} ResetTokenSingleUse(s: Store, token: Option<string>, email: string, password: string,
                                               now: int, within: int, ext: Capabilities,
                                               password2: string, now2: int)
    requires WellFormed(s) && UniqueResetTokens(s)
    requires ResetByToken(s, token, email, password, now, within, ext).Ok?
    ensures ResetByToken(ResetByToken(s, token, email, password, now, within, ext).value.0,
                         token, email, password2, now2, within, ext)
            == Err(ResetPasswordError("Invalid reset password token"))
  {
    var (s1, u1) := ResetByToken(s, token, email, password, now, within, ext).value;
    var i := UserIndex(s.users, ByResetPasswordToken(token)).value;
    SaveStored(s, i, u1);
    assert s1.users == s.users[i := u1];
    forall j | 0 <= j < |s1.users|
      ensures s1.users[j].resetPasswordToken != token
    {
      if j != i {
        if j < i {
          assert !Matches(s.users[j], ByResetPasswordToken(token));
        } else {
          assert s.users[i].resetPasswordToken.Some?;
          assert s.users[i].resetPasswordToken != s.users[j].resetPasswordToken;
        }
      }
    }
  }

  /** A successful reset clears the token it used, so reset tokens stay unique. */
  lemma ResetByTokenKeepsUnique(s: Store, token: Option<string>, email: string, password: string,
                                now: int, within: int, ext: Capabilities)
    requires WellFormed(s) && UniqueResetTokens(s)
    requires ResetByToken(s, token, email, password, now, within, ext).Ok?
    ensures UniqueResetTokens(ResetByToken(s, token, email, password, now, within, ext).value.0)
  {
    var (s1, u1) := ResetByToken(s, token, email, password, now, within, ext).value;
    SaveKeepsUniqueResetTokens(s, u1);
  }

  /** `reset_password_reset_token(user)`: a fresh token is issued and the user
      saved; the new token then finds exactly that user. */
  method ResetPasswordResetToken(s: Store, user: User, candidates: seq<string>, now: int)
    returns (r: Result<(Store, User), Exception>)
    requires WellFormed(s)
    requires exists k | 0 <= k < |candidates| :: FindUserByResetToken(s, Some(candidates[k])).Err?
    ensures r.Ok? ==> r.value.0 == Save(s, r.value.1) && r.value.1.resetPasswordSentAt == Some(now)
    ensures r.Ok? ==> FindUserByResetToken(r.value.0, r.value.1.resetPasswordToken) == Ok(r.value.1)
    ensures r.Ok? ==> WithId(r.value.0, user.id) == Ok(r.value.1)
    ensures r.Err? ==> r.error.ResetPasswordError?
    ensures r.Ok? && UniqueResetTokens(s) ==> UniqueResetTokens(r.value.0)
  {
    var generated := GenerateResetPasswordToken(s, user, candidates, now);
    if generated.Err? {
      return Err(generated.error);
    }
    var u := generated.value;
    var s1 := Save(s, u);
    IssuedTokenFindsUser(s, u);
    if UniqueResetTokens(s) {
      SaveKeepsUniqueResetTokens(s, u);
    }
    r := Ok((s1, u));
  }

  /** Saving a user that holds a token no other user holds makes the token
      find that user. */
  lemma IssuedTokenFindsUser(s: Store, u: User)
    requires WellFormed(s)
    requires u.resetPasswordToken.Some? && u.resetPasswordToken.value != ""
    requires forall v | v in s.users :: v.resetPasswordToken != u.resetPasswordToken
    ensures FindUserByResetToken(Save(s, u), u.resetPasswordToken) == Ok(u)
    ensures WithId(Save(s, u), u.id) == Ok(u)
  {
    SaveThenLoad(s, u);
    var s1 := Save(s, u);
    match UserIndex(s.users, ById(u.id))
    case Some(i) =>
      SaveStored(s, i, u);
      UserIndexIs(s1.users, ByResetPasswordToken(u.resetPasswordToken), i);
    case None =>
      assert s1.users == s.users + [u];
      UserIndexIs(s1.users, ByResetPasswordToken(u.resetPasswordToken), |s.users|);
  }
}
