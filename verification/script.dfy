/** The management commands: the `--active` sanitiser, the lookups that turn
    a missing user or role into `ValueError`, the `commit` wrapper, and the
    commands built from them. A command's run is described by the store as
    committed afterwards, the exception it raised if any, and how many
    commits it made. */
module Script {
  import opened Wrappers
  import opened Text
  import opened Users
  import opened Exceptions
  import opened External
  import opened Datastore
  import opened Forms

  /** The spellings of `--active` that mean "active" once whitespace is
      removed and the text lower-cased. */
  const ActiveWords: seq<string> := ["", "y", "yes", "1", "active"]

  /** `re.sub(r'\s', '', str(active)).lower() in ActiveWords`. */
  function SanitizeActive(active: string): (isActive: bool)
    ensures isActive <==> exists w | w in ActiveWords :: Lower(RemoveSpaces(active)) == w
  {
    Lower(RemoveSpaces(active)) in ActiveWords
  }

  /** The option's default, the empty string, means active. */
  lemma SanitizeActiveDefault()
    ensures SanitizeActive("")
  {
    assert Lower(RemoveSpaces("")) == "";
  }

  /** Whitespace anywhere in the value is ignored. */
  lemma SanitizeIgnoresSpace(a: string, c: char, b: string)
    requires IsSpace(c)
    ensures SanitizeActive(a + [c] + b) == SanitizeActive(a + b)
  {
    RemoveSpacesAppend(a + [c], b);
    RemoveSpacesAppend(a, [c]);
    RemoveSpacesAppend(a, b);
    assert RemoveSpaces([c]) == [];
    assert RemoveSpaces(a) + [] == RemoveSpaces(a);
  }

  /** Letter case is ignored. */
  lemma SanitizeIgnoresCase(a: string)
    ensures SanitizeActive(Upper(a)) == SanitizeActive(a)
  {
    RemoveSpacesUpper(a);
    var r := RemoveSpaces(a);
    assert Lower(Upper(r)) == Lower(r) by {
      forall i | 0 <= i < |r| ensures Lower(Upper(r))[i] == Lower(r)[i] {
        assert Upper(r)[i] == UpperChar(r[i]);
      }
    }
  }

  lemma {:induction false} RemoveSpacesUpper(a: string)
    ensures RemoveSpaces(Upper(a)) == Upper(RemoveSpaces(a))
    decreases |a|
  {
    if |a| > 0 {
      assert Upper(a)[0] == UpperChar(a[0]);
      assert Upper(a)[1..] == Upper(a[1..]);
      RemoveSpacesUpper(a[1..]);
      if !IsSpace(a[0]) {
        assert Upper([a[0]] + RemoveSpaces(a[1..])) == [UpperChar(a[0])] + Upper(RemoveSpaces(a[1..]));
      }
    }
  }

  /** A few spellings: a bare `y`, `Yes` with surrounding blanks, and `no`. */
  lemma SanitizeExamples()
    ensures SanitizeActive("y")
    ensures SanitizeActive(" Yes ")
    ensures !SanitizeActive("no")
  {
    assert RemoveSpaces("y") == "y";
    assert Lower("y") == "y";
    assert RemoveSpaces(" Yes ") == "Yes";
    assert Lower("Yes") == "yes";
    assert RemoveSpaces("no") == "no";
    assert Lower("no") == "no";
  }

  /** `get_user(identifier)`: the datastore's user, or `ValueError` naming
      the identifier. */
  function GetUserOrFail(s: Store, identifier: string): (r: Result<User, Exception>)
    ensures r.Ok? <==> Datastore.GetUser(s, identifier).Some?
    ensures r.Ok? ==> r.value == Datastore.GetUser(s, identifier).value
    ensures r.Err? ==> r.error == ValueError("User '" + identifier + "' doesn't exist")
  {
    match Datastore.GetUser(s, identifier)
    case None => Err(ValueError("User '" + identifier + "' doesn't exist"))
    case Some(u) => Ok(u)
  }

  /** `find_role(name)`: the datastore's role, or `ValueError` naming it. */
  function FindRoleOrFail(s: Store, name: string): (r: Result<Role, Exception>)
    ensures r.Ok? <==> name in RoleNames(s.roles)
    ensures r.Ok? ==> r.value in s.roles && r.value.name == name
    ensures r.Err? ==> r.error == ValueError("Role '" + name + "' doesn't exist")
  {
    match Datastore.FindRole(s, name)
    case Err(_) => Err(ValueError("Role '" + name + "' doesn't exist"))
    case Ok(role) => Ok(role)
  }

  /** The observable end of one command run: the committed store, the
      exception that escaped, and the number of commits. */
  datatype Run = Run(store: Store, raised: Option<Exception>, commits: nat)

  /** The `commit` decorator: when the command returns, the datastore is
      committed once; when it raises, the exception escapes and nothing is
      committed, so the store stays as it was. */
  function Commit(before: Store, body: Result<Store, Exception>): (run: Run)
    ensures run.commits == 1 <==> body.Ok?
    ensures run.commits <= 1
    ensures run.raised.None? <==> body.Ok?
    ensures body.Ok? ==> run.store == body.value
    ensures body.Err? ==> run.store == before && run.raised == Some(body.error)
  {
    match body
    case Ok(after) => Run(after, None, 1)
    case Err(e) => Run(before, Some(e), 0)
  }

  /** The store part of a datastore operation's result. */
  function StoreOf<T>(r: Result<(Store, T), Exception>): (out: Result<Store, Exception>)
    ensures out.Ok? <==> r.Ok?
    ensures r.Ok? ==> out.value == r.value.0
    ensures r.Err? ==> out.error == r.error
  {
    match r
    case Ok(v) => Ok(v.0)
    case Err(e) => Err(e)
  }

  /** `create_user --email --password [--active]`: the registration form
      (without CSRF) is validated first; only if it accepts, the password is
      hashed and the user created. A rejected form prints its errors and the
      command still returns normally. */
  method CreateUserCommand(s: Store, email: string, password: string, active: string,
                           defaultRoles: seq<RoleArg>, ext: Capabilities)
    returns (run: Run)
    requires WellFormed(s)
    ensures !RegisterValidate(s, RegisterData(email, password, None, true), ext).valid ==> run == Run(s, None, 1)
    ensures Datastore.GetUser(s, email).Some? ==> run.store == s
    ensures run.raised.Some? ==> run.store == s && run.commits == 0 && run.raised.value == RoleNotFoundError
    ensures run.store != s ==>
      && RegisterValidate(s, RegisterData(email, password, None, true), ext).valid
      && |run.store.users| == |s.users| + 1
      && run.store.users[..|s.users|] == s.users
      && var u := run.store.users[|s.users|];
         && u.email == email
         && u.active == SanitizeActive(active)
         && u.password == CommandPasswordHash(password, ext)
         && |u.roles| == |defaultRoles|
         && (forall k | 0 <= k < |defaultRoles| ::
               u.roles[k] in s.roles && u.roles[k].name == RoleArgName(defaultRoles[k]))
         && Datastore.GetUser(run.store, email) == Some(u)
         && WellFormed(run.store)
    ensures RegisterValidate(s, RegisterData(email, password, None, true), ext).valid ==>
      (run.raised.None? <==> forall k | 0 <= k < |defaultRoles| :: RoleArgName(defaultRoles[k]) in RoleNames(s.roles))
    ensures RegisterValidate(s, RegisterData(email, password, None, true), ext).valid && run.raised.None? ==>
      run.store != s
  {
    var isActive := SanitizeActive(active);
    var form := RegisterValidate(s, RegisterData(email, password, None, true), ext);
    if !form.valid {
      return Commit(s, Ok(s));
    }
    var hashed := ext.encrypt(password);
    var created := CreateUser(s, UserArgs(Some(email), Some(hashed), Passed(Some(isActive)), Omitted, None), defaultRoles, ext);
    assert RequestedRoles(Omitted, defaultRoles) == defaultRoles;
    if created.Ok? {
      var u := created.value.1;
      assert created.value.0.users == s.users + [u];
      assert created.value.0.users[..|s.users|] == s.users;
      assert |created.value.0.users| != |s.users|;
      AppendedUserFound(s, created.value.0, u);
    }
    run := Commit(s, StoreOf(created));
  }

  /** A user appended under an e-mail no stored user has is the one the
      e-mail lookup finds afterwards. */
  lemma AppendedUserFound(s: Store, after: Store, u: User)
    requires Datastore.GetUser(s, u.email).None?
    requires after.users == s.users + [u]
    ensures Datastore.GetUser(after, u.email) == Some(u)
  {
    assert u in after.users;
  }

  /** The stored password of a command-created user: the command hashes the
      password, and `create_user` hashes again unless it recognises a hash. */
  function CommandPasswordHash(password: string, ext: Capabilities): (stored: string)
    ensures ext.identify(ext.encrypt(password)) ==> stored == ext.encrypt(password)
    ensures !ext.identify(ext.encrypt(password)) ==> stored == ext.encrypt(ext.encrypt(password))
  {
    var hashed := ext.encrypt(password);
    if ext.identify(hashed) then hashed else ext.encrypt(hashed)
  }

  /** `create_role --name [--desc]`. */
  function CreateRoleCommand(s: Store, name: string, description: Option<string>): (run: Run)
    ensures run.raised.None? && run.commits == 1
    ensures run.store == s.(roles := s.roles + [Role(name, description)])
    ensures FindRoleOrFail(run.store, name).Ok?
  {
    Commit(s, StoreOf(CreateRole(s, Passed(Some(name)), description)))
  }

  /** `add_role --user --role`: the user is looked up before the role; both
      must exist. */
  function AddRoleCommand(s: Store, identifier: string, roleName: string): (run: Run)
    requires WellFormed(s)
    ensures Datastore.GetUser(s, identifier).None? ==>
      run == Run(s, Some(ValueError("User '" + identifier + "' doesn't exist")), 0)
    ensures Datastore.GetUser(s, identifier).Some? && roleName !in RoleNames(s.roles) ==>
      run == Run(s, Some(ValueError("Role '" + roleName + "' doesn't exist")), 0)
    ensures Datastore.GetUser(s, identifier).Some? && roleName in RoleNames(s.roles) ==>
      && run.raised.None? && run.commits == 1
      && Datastore.GetUser(run.store, identifier).Some?
      && roleName in RoleNames(Datastore.GetUser(run.store, identifier).value.roles)
  {
    match GetUserOrFail(s, identifier)
    case Err(e) => Commit(s, Err(e))
    case Ok(u) =>
      match FindRoleOrFail(s, roleName)
      case Err(e) => Commit(s, Err(e))
      case Ok(role) =>
        var r := AddRoleToUser(s, u, RoleInstance(role));
        AddedRoleFound(s, u, role);
        Commit(s, StoreOf(r))
  }

  /** After `add_role_to_user` on a stored user, the user found under the same
      e-mail holds the role. */
  lemma AddedRoleFound(s: Store, u: User, role: Role)
    requires WellFormed(s) && u in s.users && role in s.roles
    requires Datastore.GetUser(s, u.email) == Some(u)
    ensures AddRoleToUser(s, u, RoleInstance(role)).Ok?
    ensures var s1 := AddRoleToUser(s, u, RoleInstance(role)).value.0;
      Datastore.GetUser(s1, u.email).Some? && role.name in RoleNames(Datastore.GetUser(s1, u.email).value.roles)
  {
    var i := UserIndex(s.users, ByEmail(Some(u.email))).value;
    var u1 := AddRoleToUser(s, u, RoleInstance(role)).value.1;
    assert s.users[i] == u;
    SaveStored(s, i, u1);
    FindUpdatedByEmail(s, i, u1);
  }

  /** `remove_role --user --role`: the user is looked up before the role; both
      must exist. The user found under the identifier afterwards keeps every
      other role, and (when its role names are distinct) no longer holds
      this one. */
  function RemoveRoleCommand(s: Store, identifier: string, roleName: string): (run: Run)
    requires WellFormed(s)
    ensures Datastore.GetUser(s, identifier).None? ==>
      run == Run(s, Some(ValueError("User '" + identifier + "' doesn't exist")), 0)
    ensures Datastore.GetUser(s, identifier).Some? && roleName !in RoleNames(s.roles) ==>
      run == Run(s, Some(ValueError("Role '" + roleName + "' doesn't exist")), 0)
    ensures Datastore.GetUser(s, identifier).Some? && roleName in RoleNames(s.roles) ==>
      var before := Datastore.GetUser(s, identifier).value;
      && run.raised.None? && run.commits == 1
      && Datastore.GetUser(run.store, identifier).Some?
      && var after := Datastore.GetUser(run.store, identifier).value;
      && (forall i | 0 <= i < |before.roles| && before.roles[i].name != roleName :: before.roles[i] in after.roles)
      && (DistinctRoleNames(before.roles) ==> roleName !in RoleNames(after.roles))
  {
    match GetUserOrFail(s, identifier)
    case Err(e) => Commit(s, Err(e))
    case Ok(u) =>
      match FindRoleOrFail(s, roleName)
      case Err(e) => Commit(s, Err(e))
      case Ok(role) =>
        var r := RemoveRoleFromUser(s, u, RoleInstance(role));
        RemovedRoleGone(s, u, role);
        Commit(s, StoreOf(r))
  }

  /** After `remove_role_from_user` on a stored user, the user found under the
      same e-mail is the updated user. */
  lemma RemovedRoleGone(s: Store, u: User, role: Role)
    requires WellFormed(s) && u in s.users && role in s.roles
    requires Datastore.GetUser(s, u.email) == Some(u)
    ensures RemoveRoleFromUser(s, u, RoleInstance(role)).Ok?
    ensures var (s1, u1) := RemoveRoleFromUser(s, u, RoleInstance(role)).value;
      Datastore.GetUser(s1, u.email) == Some(u1)
  {
    var i := UserIndex(s.users, ByEmail(Some(u.email))).value;
    var u1 := RemoveRoleFromUser(s, u, RoleInstance(role)).value.1;
    assert s.users[i] == u;
    SaveStored(s, i, u1);
    FindUpdatedByEmail(s, i, u1);
  }

  /** `add_role` followed by `remove_role` for a role the user did not hold
      gives back the store as it was. */
  lemma RoleCommandsUndo(s: Store, identifier: string, roleName: string)
    requires WellFormed(s) && Datastore.GetUser(s, identifier).Some? && roleName in RoleNames(s.roles)
    requires roleName !in RoleNames(Datastore.GetUser(s, identifier).value.roles)
    ensures WellFormed(AddRoleCommand(s, identifier, roleName).store)
    ensures RemoveRoleCommand(AddRoleCommand(s, identifier, roleName).store, identifier, roleName).store == s
  {
    var u := Datastore.GetUser(s, identifier).value;
    var role := FindRoleOrFail(s, roleName).value;
    var i := UserIndex(s.users, ByEmail(Some(identifier))).value;
    assert s.users[i] == u;
    AddedRoleFound(s, u, role);
    var (s1, u1) := AddRoleToUser(s, u, RoleInstance(role)).value;
    SaveStored(s, i, u1);
    FindUpdatedByEmail(s, i, u1);
    assert Datastore.GetUser(s1, identifier) == Some(u1);
    assert FindRoleOrFail(s1, roleName) == Ok(role);
    AddThenRemoveRestores(s, u, RoleInstance(role));
    assert PrepareRoleModify(s1, u1, RoleInstance(role)) == PrepareRoleModify(s1, u, RoleInstance(role));
    var (s2, u2) := RemoveRoleFromUser(s1, u1, RoleInstance(role)).value;
    assert u2 == u;
    SaveStored(s1, i, u);
    assert s1.users[i := u] == s.users;
  }

  /** `deactivate --user` and `activate --user`: the found user's flag is set
      to the requested value. */
  function SetActiveCommand(s: Store, identifier: string, activate: bool): (run: Run)
    requires WellFormed(s)
    ensures Datastore.GetUser(s, identifier).None? ==>
      run == Run(s, Some(ValueError("User '" + identifier + "' doesn't exist")), 0)
    ensures Datastore.GetUser(s, identifier).Some? ==>
      && run.raised.None? && run.commits == 1
      && Datastore.GetUser(run.store, identifier).Some?
      && Datastore.GetUser(run.store, identifier).value.active == activate
  {
    match GetUserOrFail(s, identifier)
    case Err(e) => Commit(s, Err(e))
    case Ok(u) =>
      var r := if activate then ActivateUser(s, u) else DeactivateUser(s, u);
      var i := UserIndex(s.users, ByEmail(Some(identifier))).value;
      assert s.users[i] == u;
      SaveStored(s, i, r.value.1);
      FindUpdatedByEmail(s, i, r.value.1);
      Commit(s, StoreOf(r))
  }

  /** `activate` after `deactivate` (or the other way round) on a stored user
      leaves them with the last command's flag; the identity found is the
      same user. */
  lemma ToggleCommandsSettle(s: Store, identifier: string)
    requires WellFormed(s) && Datastore.GetUser(s, identifier).Some?
    ensures var s1 := SetActiveCommand(s, identifier, false).store;
      && WellFormed(s1)
      && var s2 := SetActiveCommand(s1, identifier, true).store;
      && Datastore.GetUser(s2, identifier).Some? && Datastore.GetUser(s2, identifier).value.active
  {
    var u := Datastore.GetUser(s, identifier).value;
    var r := DeactivateUser(s, u);
    var i := UserIndex(s.users, ByEmail(Some(identifier))).value;
    assert s.users[i] == u;
    SaveStored(s, i, r.value.1);
  }
}
