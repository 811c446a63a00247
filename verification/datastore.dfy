/** The abstract user datastore (`UserDatastore`) over an in-memory store:
    lookups that raise on a miss, role add/remove, active toggling, and user
    and role creation. Saving a model writes it back by id. */
module Datastore {
  import opened Wrappers
  import opened Users
  import opened Exceptions
  import opened External

  /** The persisted users and roles, in insertion order (the order the
      back-end's `first()` sees), and the id the next new user receives. */
  datatype Store = Store(users: seq<User>, roles: seq<Role>, nextId: nat)

  /** No two users share an id, and every id is below `nextId`. */
  predicate WellFormed(s: Store) {
    && (forall i, j | 0 <= i < j < |s.users| :: s.users[i].id != s.users[j].id)
    && (forall i | 0 <= i < |s.users| :: s.users[i].id < s.nextId)
  }

  /** The keyword arguments the core passes to `find_user`, and `with_id`'s id. */
  datatype Query =
    | ById(id: nat)
    | ByEmail(email: Option<string>)
    | ByAuthenticationToken(token: Option<string>)
    | ByResetPasswordToken(token: Option<string>)

  /** `filter_by(field=value)`: equality on the field. A `None` value matches a
      user whose field is unset, as the back-ends' `IS NULL` / missing-field
      matching does; every user has an e-mail, so `email=None` matches nobody. */
  predicate Matches(u: User, q: Query) {
    match q
    case ById(id) => u.id == id
    case ByEmail(e) => e == Some(u.email)
    case ByAuthenticationToken(t) => u.authenticationToken == t
    case ByResetPasswordToken(t) => u.resetPasswordToken == t
  }

  /** The index of the first element satisfying `p`. */
  function FirstIndex<T>(xs: seq<T>, p: T -> bool): (r: Option<nat>)
    ensures r.Some? ==> r.value < |xs| && p(xs[r.value])
    ensures r.Some? ==> forall j | 0 <= j < r.value :: !p(xs[j])
    ensures r.None? ==> forall j | 0 <= j < |xs| :: !p(xs[j])
  {
    if |xs| == 0 then None
    else if p(xs[0]) then Some(0)
    else
      match FirstIndex(xs[1..], p)
      case None => None
      case Some(k) => Some(k + 1)
  }

  /** The position of the first user matching `q`. */
  function UserIndex(users: seq<User>, q: Query): (r: Option<nat>)
    ensures r.Some? ==> r.value < |users| && Matches(users[r.value], q)
    ensures r.Some? ==> forall j | 0 <= j < r.value :: !Matches(users[j], q)
    ensures r.None? ==> forall j | 0 <= j < |users| :: !Matches(users[j], q)
  {
    FirstIndex(users, (u: User) => Matches(u, q))
  }

  /** The position of the first match is determined by the matches before it. */
  lemma UserIndexIs(users: seq<User>, q: Query, k: nat)
    requires k < |users| && Matches(users[k], q)
    requires forall j | 0 <= j < k :: !Matches(users[j], q)
    ensures UserIndex(users, q) == Some(k)
  {
  }

  lemma UserIndexNone(users: seq<User>, q: Query)
    requires forall j | 0 <= j < |users| :: !Matches(users[j], q)
    ensures UserIndex(users, q) == None
  {
  }

  /** `find_user(**kwargs)`: the first matching user, or `UserNotFoundError`. */
  function FindUser(s: Store, q: Query): (r: Result<User, Exception>)
    ensures r.Ok? ==> r.value in s.users && Matches(r.value, q)
    ensures r.Err? <==> forall u | u in s.users :: !Matches(u, q)
    ensures r.Err? ==> r.error == UserNotFoundError
  {
    match UserIndex(s.users, q)
    case Some(i) => Ok(s.users[i])
    case None => Err(UserNotFoundError)
  }

  /** `with_id(id)`: the user with that id, or `UserIdNotFoundError`. */
  function WithId(s: Store, id: nat): (r: Result<User, Exception>)
    ensures r.Ok? ==> r.value in s.users && r.value.id == id
    ensures r.Err? <==> forall u | u in s.users :: u.id != id
    ensures r.Err? ==> r.error == UserIdNotFoundError
  {
    match UserIndex(s.users, ById(id))
    case Some(i) => Ok(s.users[i])
    case None => Err(UserIdNotFoundError)
  }

  /** `get_user(identifier)` of the datastore the forms and commands are written
      against: the first user with that e-mail, or `None`. */
  function GetUser(s: Store, identifier: string): (r: Option<User>)
    ensures r.Some? ==> r.value in s.users && r.value.email == identifier
    ensures r.None? <==> forall u | u in s.users :: u.email != identifier
  {
    match FindUser(s, ByEmail(Some(identifier)))
    case Ok(u) => Some(u)
    case Err(_) => None
  }

  /** `find_role(name)`: the first role with that name, or `RoleNotFoundError`. */
  function FindRole(s: Store, name: string): (r: Result<Role, Exception>)
    ensures r.Ok? ==> r.value in s.roles && r.value.name == name
    ensures r.Err? <==> name !in RoleNames(s.roles)
    ensures r.Err? ==> r.error == RoleNotFoundError
  {
    match FirstIndex(s.roles, (x: Role) => x.name == name)
    case Some(i) => Ok(s.roles[i])
    case None => Err(RoleNotFoundError)
  }

  /** `_save_model(user)`: the user replaces the stored user with its id, or is
      appended when no stored user has that id. */
  function Save(s: Store, u: User): (s': Store)
    ensures s'.roles == s.roles
    ensures u in s'.users
  {
    match UserIndex(s.users, ById(u.id))
    case Some(i) =>
      assert s.users[i := u][i] == u;
      s.(users := s.users[i := u])
    case None =>
      assert (s.users + [u])[|s.users|] == u;
      s.(users := s.users + [u], nextId := if u.id < s.nextId then s.nextId else u.id + 1)
  }

  /** In a well-formed store, saving a stored user's new version overwrites
      exactly that user's position. */
  lemma SaveStored(s: Store, i: nat, u: User)
    requires WellFormed(s)
    requires i < |s.users| && s.users[i].id == u.id
    ensures Save(s, u) == s.(users := s.users[i := u])
    ensures WellFormed(Save(s, u))
  {
    UserIndexIs(s.users, ById(u.id), i);
  }

  /** Saving keeps the store well-formed, after which the saved user is what
      `with_id` returns, and every other id still finds what it found before. */
  lemma SaveThenLoad(s: Store, u: User)
    requires WellFormed(s)
    ensures WellFormed(Save(s, u))
    ensures WithId(Save(s, u), u.id) == Ok(u)
    ensures forall id | id != u.id :: WithId(Save(s, u), id) == WithId(s, id)
  {
    var s' := Save(s, u);
    match UserIndex(s.users, ById(u.id))
    case Some(i) =>
      SaveStored(s, i, u);
      UserIndexIs(s'.users, ById(u.id), i);
      forall id | id != u.id
        ensures WithId(s', id) == WithId(s, id)
      {
        match UserIndex(s.users, ById(id))
        case Some(k) =>
          UserIndexIs(s'.users, ById(id), k);
        case None =>
          UserIndexNone(s'.users, ById(id));
      }
    case None =>
      assert s'.users == s.users + [u];
      UserIndexIs(s'.users, ById(u.id), |s.users|);
      forall id | id != u.id
        ensures WithId(s', id) == WithId(s, id)
      {
        match UserIndex(s.users, ById(id))
        case Some(k) =>
          UserIndexIs(s'.users, ById(id), k);
        case None =>
          UserIndexNone(s'.users, ById(id));
      }
  }

  /** A role argument: a role name or a role model instance. */
  datatype RoleArg = RoleName(name: string) | RoleInstance(role: Role)

  /** `role.name if isinstance(role, self.role_model) else role`. */
  function RoleArgName(a: RoleArg): string {
    match a
    case RoleName(n) => n
    case RoleInstance(r) => r.name
  }

  /** `_prepare_role_modify_args`: a role instance is reduced to its name, then
      the stored user is looked up by the given user's e-mail and the stored
      role by name, the user first. */
  function PrepareRoleModify(s: Store, user: User, role: RoleArg): (r: Result<(User, Role), Exception>)
    ensures r.Ok? ==> r.value.0 in s.users && r.value.0.email == user.email
    ensures r.Ok? ==> r.value.1 in s.roles && r.value.1.name == RoleArgName(role)
    ensures r.Err? <==> GetUser(s, user.email).None? || RoleArgName(role) !in RoleNames(s.roles)
    ensures r.Err? ==> r.error == if GetUser(s, user.email).None? then UserNotFoundError else RoleNotFoundError
  {
    match FindUser(s, ByEmail(Some(user.email)))
    case Err(e) => Err(e)
    case Ok(stored) =>
      match FindRole(s, RoleArgName(role))
      case Err(e) => Err(e)
      case Ok(found) => Ok((stored, found))
  }

  /** `if role not in user.roles: user.roles.append(role)`. */
  function AppendIfAbsent(roles: seq<Role>, r: Role): (out: seq<Role>)
    ensures RoleNames(out) == RoleNames(roles) + {r.name}
    ensures r.name in RoleNames(roles) ==> out == roles
    ensures roles <= out
    ensures DistinctRoleNames(roles) ==> DistinctRoleNames(out)
  {
    if exists i | 0 <= i < |roles| :: RoleEq(roles[i], RoleOperand(r)) then roles
    else
      assert RoleNames(roles + [r]) == RoleNames(roles) + {r.name} by {
        RoleNamesConcat(roles, [r]);
        RoleNamesSingle(r);
      }
      roles + [r]
  }

  /** `if role in user.roles: user.roles.remove(role)`: drops the first role
      equal (by name) to `r`. */
  function RemoveFirst(roles: seq<Role>, r: Role): (out: seq<Role>)
    ensures r.name !in RoleNames(roles) ==> out == roles
    ensures r.name in RoleNames(roles) ==> |out| == |roles| - 1
    ensures RoleNames(out) <= RoleNames(roles)
    ensures forall i | 0 <= i < |roles| && roles[i].name != r.name :: roles[i] in out
    ensures DistinctRoleNames(roles) ==> DistinctRoleNames(out)
    ensures DistinctRoleNames(roles) ==> RoleNames(out) == RoleNames(roles) - {r.name}
  {
    if |roles| == 0 then []
    else if RoleEq(roles[0], RoleOperand(r)) then
      assert roles == [roles[0]] + roles[1..];
      RoleNamesConcat([roles[0]], roles[1..]);
      RoleNamesSingle(roles[0]);
      roles[1..]
    else
      var rest := RemoveFirst(roles[1..], r);
      assert roles == [roles[0]] + roles[1..];
      RoleNamesConcat([roles[0]], roles[1..]);
      RoleNamesConcat([roles[0]], rest);
      RoleNamesSingle(roles[0]);
      [roles[0]] + rest
  }

  /** `add_role_to_user`: the stored user gains the role unless it already holds
      it, everything else about the user stays, and the user is saved. */
  function AddRoleToUser(s: Store, user: User, role: RoleArg): (r: Result<(Store, User), Exception>)
    ensures r.Err? <==> PrepareRoleModify(s, user, role).Err?
    ensures r.Err? ==> r.error == PrepareRoleModify(s, user, role).error
    ensures r.Ok? ==>
      var stored := PrepareRoleModify(s, user, role).value.0;
      && RoleNames(r.value.1.roles) == RoleNames(stored.roles) + {RoleArgName(role)}
      && stored.roles <= r.value.1.roles
      && r.value.1.(roles := stored.roles) == stored
      && r.value.0 == Save(s, r.value.1)
  {
    match PrepareRoleModify(s, user, role)
    case Err(e) => Err(e)
    case Ok((stored, found)) =>
      var updated := stored.(roles := AppendIfAbsent(stored.roles, found));
      Ok((Save(s, updated), updated))
  }

  /** `remove_role_from_user`: the stored user loses the role if it holds it
      (a no-op otherwise), keeps every other role, and is saved. */
  function RemoveRoleFromUser(s: Store, user: User, role: RoleArg): (r: Result<(Store, User), Exception>)
    ensures r.Err? <==> PrepareRoleModify(s, user, role).Err?
    ensures r.Err? ==> r.error == PrepareRoleModify(s, user, role).error
    ensures r.Ok? ==>
      var stored := PrepareRoleModify(s, user, role).value.0;
      && (RoleArgName(role) !in RoleNames(stored.roles) ==> r.value.1 == stored)
      && (forall i | 0 <= i < |stored.roles| && stored.roles[i].name != RoleArgName(role) ::
            stored.roles[i] in r.value.1.roles)
      && (DistinctRoleNames(stored.roles) ==>
            RoleNames(r.value.1.roles) == RoleNames(stored.roles) - {RoleArgName(role)})
      && r.value.1.(roles := stored.roles) == stored
      && r.value.0 == Save(s, r.value.1)
  {
    match PrepareRoleModify(s, user, role)
    case Err(e) => Err(e)
    case Ok((stored, found)) =>
      var updated := stored.(roles := RemoveFirst(stored.roles, found));
      Ok((Save(s, updated), updated))
  }

  /** When the user's e-mail finds the stored user at position `i`, updating
      that user in place leaves it the first match for its e-mail. */
  lemma FindUpdatedByEmail(s: Store, i: nat, u: User)
    requires i < |s.users| && UserIndex(s.users, ByEmail(Some(u.email))) == Some(i)
    ensures FindUser(s.(users := s.users[i := u]), ByEmail(Some(u.email))) == Ok(u)
  {
    UserIndexIs(s.users[i := u], ByEmail(Some(u.email)), i);
  }

  /** Adding a role a second time changes nothing: the store and the user
      are exactly what the first addition produced. */
  lemma {:induction false} AddRoleIdempotent(s: Store, user: User, role: RoleArg)
    requires WellFormed(s)
    requires AddRoleToUser(s, user, role).Ok?
    ensures AddRoleToUser(AddRoleToUser(s, user, role).value.0, user, role) == AddRoleToUser(s, user, role)
  {
    var (s1, u1) := AddRoleToUser(s, user, role).value;
    var i := UserIndex(s.users, ByEmail(Some(user.email))).value;
    var stored := s.users[i];
    SaveStored(s, i, u1);
    FindUpdatedByEmail(s, i, u1);
    var found := FindRole(s1, RoleArgName(role)).value;
    assert PrepareRoleModify(s1, user, role) == Ok((u1, found));
    assert AppendIfAbsent(u1.roles, found) == u1.roles;
    assert u1.(roles := AppendIfAbsent(u1.roles, found)) == u1;
    SaveStored(s1, i, u1);
    assert s1.users[i := u1] == s1.users;
  }

  /** Removing a role that adding just introduced restores the user's roles. */
  lemma {:induction false} AddThenRemoveRestores(s: Store, user: User, role: RoleArg)
    requires WellFormed(s)
    requires AddRoleToUser(s, user, role).Ok?
    requires RoleArgName(role) !in RoleNames(PrepareRoleModify(s, user, role).value.0.roles)
    ensures RemoveRoleFromUser(AddRoleToUser(s, user, role).value.0, user, role).Ok?
    ensures RemoveRoleFromUser(AddRoleToUser(s, user, role).value.0, user, role).value.1
            == PrepareRoleModify(s, user, role).value.0
  {
    var (s1, u1) := AddRoleToUser(s, user, role).value;
    var i := UserIndex(s.users, ByEmail(Some(user.email))).value;
    var stored := s.users[i];
    var found := FindRole(s, RoleArgName(role)).value;
    assert u1.roles == stored.roles + [found];
    SaveStored(s, i, u1);
    FindUpdatedByEmail(s, i, u1);
    assert FindRole(s1, RoleArgName(role)) == Ok(found);
    RemoveAppended(stored.roles, found);
  }

  lemma {:induction false} RemoveAppended(roles: seq<Role>, r: Role)
    requires r.name !in RoleNames(roles)
    ensures RemoveFirst(roles + [r], r) == roles
    decreases |roles|
  {
    if |roles| == 0 {
      assert roles + [r] == [r];
    } else {
      assert (roles + [r])[1..] == roles[1..] + [r];
      assert RoleNames(roles[1..]) <= RoleNames(roles) by {
        forall k | 0 <= k < |roles[1..]| ensures roles[1..][k].name in RoleNames(roles) {
          assert roles[1..][k] == roles[k + 1];
        }
      }
      assert roles[0].name in RoleNames(roles);
      RemoveAppended(roles[1..], r);
      assert roles == [roles[0]] + roles[1..];
    }
  }

  /** `_do_toggle_active(user, active)`: with no value the stored user's flag
      flips; with a value it is set to that value; then the user is saved. */
  function ToggleActive(s: Store, user: User, active: Option<bool>): (r: Result<(Store, User), Exception>)
    ensures r.Err? <==> GetUser(s, user.email).None?
    ensures r.Err? ==> r.error == UserNotFoundError
    ensures r.Ok? ==>
      var stored := GetUser(s, user.email).value;
      && r.value.1.active == (if active.None? then !stored.active else active.value)
      && r.value.1.(active := stored.active) == stored
      && r.value.0 == Save(s, r.value.1)
  {
    match FindUser(s, ByEmail(Some(user.email)))
    case Err(e) => Err(e)
    case Ok(stored) =>
      var updated :=
        if active.None? then stored.(active := !stored.active)
        else if active.value != stored.active then stored.(active := active.value)
        else stored;
      Ok((Save(s, updated), updated))
  }

  /** `deactivate_user`: the stored user ends inactive. */
  function DeactivateUser(s: Store, user: User): (r: Result<(Store, User), Exception>)
    ensures r.Err? <==> GetUser(s, user.email).None?
    ensures r.Ok? ==> !r.value.1.active && r.value.1.id == GetUser(s, user.email).value.id
  {
    ToggleActive(s, user, Some(false))
  }

  /** `activate_user`: the stored user ends active. */
  function ActivateUser(s: Store, user: User): (r: Result<(Store, User), Exception>)
    ensures r.Err? <==> GetUser(s, user.email).None?
    ensures r.Ok? ==> r.value.1.active && r.value.1.id == GetUser(s, user.email).value.id
  {
    ToggleActive(s, user, Some(true))
  }

  /** Toggling twice without a value restores the stored user and the store. */
  lemma {:induction false} ToggleTwiceRestores(s: Store, user: User)
    requires WellFormed(s)
    requires ToggleActive(s, user, None).Ok?
    ensures ToggleActive(ToggleActive(s, user, None).value.0, user, None).value.0 == s
  {
    var (s1, u1) := ToggleActive(s, user, None).value;
    var i := UserIndex(s.users, ByEmail(Some(user.email))).value;
    var stored := s.users[i];
    SaveStored(s, i, u1);
    FindUpdatedByEmail(s, i, u1);
    assert u1.(active := !u1.active) == stored;
    SaveStored(s1, i, stored);
    assert s1.users[i := stored] == s.users;
  }

  /** A keyword argument of a call: left out, or passed (possibly as `None`). */
  datatype Arg<T> = Omitted | Passed(value: Option<T>)

  /** `create_role(name=..., description=...)`: leaving the name out is a
      `KeyError` (the name is read with `kwargs['name']`), passing `None`
      raises `RoleCreationError`; otherwise the role is stored and can be
      found. */
  function CreateRole(s: Store, name: Arg<string>, description: Option<string>): (r: Result<(Store, Role), Exception>)
    ensures r.Ok? <==> name.Passed? && name.value.Some?
    ensures name.Omitted? ==> r == Err(KeyError("name"))
    ensures name == Passed(None) ==> r == Err(RoleCreationError("Missing name argument"))
    ensures r.Ok? ==> r.value.1 == Role(name.value.value, description)
    ensures r.Ok? ==> r.value.0 == s.(roles := s.roles + [r.value.1])
    ensures r.Ok? ==> FindRole(r.value.0, name.value.value).Ok?
  {
    match name
    case Omitted => Err(KeyError("name"))
    case Passed(None) => Err(RoleCreationError("Missing name argument"))
    case Passed(Some(n)) =>
      var role := Role(n, description);
      assert (s.roles + [role])[|s.roles|] == role;
      Ok((s.(roles := s.roles + [role]), role))
  }

  /** The keyword arguments of `create_user`. E-mail, password and token are
      read with `get`, so leaving one out is the same as passing `None`;
      `active` and `roles` are defaulted only when left out. */
  datatype UserArgs = UserArgs(
    email: Option<string>,
    password: Option<string>,
    active: Arg<bool>,
    roles: Arg<seq<RoleArg>>,
    authenticationToken: Option<string>)

  /** The stored active flag: `True` when left out; a passed `None` is stored
      as `NULL`, which every check of the flag reads as false. */
  function ActiveFlag(active: Arg<bool>): bool {
    match active
    case Omitted => true
    case Passed(v) => v.GetOr(false)
  }

  /** The roles to resolve: the default roles when left out. */
  function RequestedRoles(roles: Arg<seq<RoleArg>>, defaultRoles: seq<RoleArg>): seq<RoleArg> {
    match roles
    case Omitted => defaultRoles
    case Passed(v) => v.GetOr([])
  }

  /** `_prepare_create_user_args` followed by saving the new user model. The
      active flag defaults to true and the roles to `defaultRoles`; a missing
      e-mail, then a missing password, raises `UserCreationError`; roles passed
      as `None` cannot be enumerated (`TypeError`); every role must exist; the
      password is hashed unless it already is a recognised hash. */
  method CreateUser(s: Store, args: UserArgs, defaultRoles: seq<RoleArg>, ext: Capabilities)
    returns (r: Result<(Store, User), Exception>)
    ensures args.email.None? ==> r == Err(UserCreationError("Missing email argument"))
    ensures args.email.Some? && args.password.None? ==> r == Err(UserCreationError("Missing password argument"))
    ensures args.email.Some? && args.password.Some? && args.roles == Passed(None) ==>
      r == Err(TypeError("'NoneType' object is not iterable"))
    ensures args.email.Some? && args.password.Some? && args.roles != Passed(None) ==>
      var requested := RequestedRoles(args.roles, defaultRoles);
      && (r.Err? <==> exists k | 0 <= k < |requested| :: RoleArgName(requested[k]) !in RoleNames(s.roles))
      && (r.Err? ==> r.error == RoleNotFoundError)
    ensures r.Ok? ==>
      var requested := RequestedRoles(args.roles, defaultRoles);
      var u := r.value.1;
      && args.roles != Passed(None)
      && u.email == args.email.value
      && u.active == ActiveFlag(args.active)
      && u.password == (if ext.identify(args.password.value) then args.password.value
                        else ext.encrypt(args.password.value))
      && |u.roles| == |requested|
      && (forall k | 0 <= k < |requested| :: u.roles[k] in s.roles && u.roles[k].name == RoleArgName(requested[k]))
      && u.authenticationToken == args.authenticationToken
      && u.resetPasswordToken.None? && u.resetPasswordSentAt.None? && u.confirmedAt.None?
      && u.id == s.nextId
      && r.value.0 == s.(users := s.users + [u], nextId := s.nextId + 1)
    ensures r.Ok? && WellFormed(s) ==> WellFormed(r.value.0)
  {
    if args.email.None? {
      return Err(UserCreationError("Missing email argument"));
    }
    if args.password.None? {
      return Err(UserCreationError("Missing password argument"));
    }
    if args.roles == Passed(None) {
      return Err(TypeError("'NoneType' object is not iterable"));
    }
    var requested := RequestedRoles(args.roles, defaultRoles);
    var resolved: seq<Role> := [];
    var k := 0;
    while k < |requested|
      invariant 0 <= k <= |requested| && |resolved| == k
      invariant forall j | 0 <= j < k :: RoleArgName(requested[j]) in RoleNames(s.roles)
      invariant forall j | 0 <= j < k :: resolved[j] in s.roles && resolved[j].name == RoleArgName(requested[j])
    {
      var found := FindRole(s, RoleArgName(requested[k]));
      if found.Err? {
        return Err(found.error);
      }
      resolved := resolved + [found.value];
      k := k + 1;
    }
    var pw := args.password.value;
    var stored := if ext.identify(pw) then pw else ext.encrypt(pw);
    var u := User(s.nextId, args.email.value, stored, ActiveFlag(args.active), resolved,
                  args.authenticationToken, None, None, None);
    r := Ok((s.(users := s.users + [u], nextId := s.nextId + 1), u));
  }
}
