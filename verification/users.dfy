/** User and role records, role comparison, and the identity an
    authenticated user provides to the permission layer. */
module Users {
  import opened Wrappers

  /** A role model: a name and an optional description. */
  datatype Role = Role(name: string, description: Option<string>)

  /** A user model. Times are integer microseconds on one clock; `password`
      holds the stored hash, and the empty string means "no password set". */
  datatype User = User(
    id: nat,
    email: string,
    password: string,
    active: bool,
    roles: seq<Role>,
    authenticationToken: Option<string>,
    resetPasswordToken: Option<string>,
    resetPasswordSentAt: Option<int>,
    confirmedAt: Option<int>)

  /** The names of the roles in a role list. */
  function RoleNames(roles: seq<Role>): set<string> {
    set i | 0 <= i < |roles| :: roles[i].name
  }

  lemma RoleNamesConcat(a: seq<Role>, b: seq<Role>)
    ensures RoleNames(a + b) == RoleNames(a) + RoleNames(b)
  {
    forall n | n in RoleNames(a + b) ensures n in RoleNames(a) + RoleNames(b) {
      var i :| 0 <= i < |a + b| && (a + b)[i].name == n;
      if i < |a| { assert a[i] == (a + b)[i]; } else { assert b[i - |a|] == (a + b)[i]; }
    }
    forall n | n in RoleNames(a) + RoleNames(b) ensures n in RoleNames(a + b) {
      if n in RoleNames(a) {
        var i :| 0 <= i < |a| && a[i].name == n;
        assert (a + b)[i] == a[i];
      } else {
        var i :| 0 <= i < |b| && b[i].name == n;
        assert (a + b)[|a| + i] == b[i];
      }
    }
  }

  lemma RoleNamesSingle(r: Role)
    ensures RoleNames([r]) == {r.name}
  {
    assert [r][0] == r;
  }

  /** No two roles of the list share a name. */
  predicate DistinctRoleNames(roles: seq<Role>) {
    forall i, j | 0 <= i < j < |roles| :: roles[i].name != roles[j].name
  }

  /** What a role can be compared with: a role name, another role, or any
      other object (one without a `name` attribute). */
  datatype Operand = NameOperand(name: string) | RoleOperand(role: Role) | OtherOperand

  /** The role name an operand stands for, if any. */
  function OperandName(other: Operand): Option<string> {
    match other
    case NameOperand(s) => Some(s)
    case RoleOperand(r) => Some(r.name)
    case OtherOperand => None
  }

  /** `getattr(other, 'name', None)`: only role objects carry a name. */
  function NameAttribute(other: Operand): Option<string> {
    match other
    case RoleOperand(r) => Some(r.name)
    case _ => None
  }

  /** Python's `name == other` for a role name: equal strings are equal, and a
      role answers through its own reflected `__eq__`, which compares names. */
  predicate NameEquals(name: string, other: Operand) {
    match other
    case NameOperand(s) => s == name
    case RoleOperand(r) => r.name == name
    case OtherOperand => false
  }

  /** `RoleMixin.__eq__`: `self.name == other or self.name == getattr(other, 'name', None)`.
      A role equals exactly the operands that name it: an equal string or a
      role of the same name. */
  function RoleEq(role: Role, other: Operand): (equal: bool)
    ensures equal <==> OperandName(other) == Some(role.name)
  {
    NameEquals(role.name, other) || NameAttribute(other) == Some(role.name)
  }

  /** `RoleMixin.__ne__`, written as the source writes it (a conjunction of the
      two negated comparisons); it is the exact negation of `RoleEq`. */
  function RoleNe(role: Role, other: Operand): (differs: bool)
    ensures differs == !RoleEq(role, other)
  {
    !NameEquals(role.name, other) && NameAttribute(other) != Some(role.name)
  }

  /** `UserMixin.has_role`: `role in self.roles`, where list membership compares
      each held role with the operand through `RoleMixin.__eq__`. */
  function HasRole(u: User, other: Operand): (has: bool)
    ensures has <==> OperandName(other).Some? && OperandName(other).value in RoleNames(u.roles)
  {
    exists i | 0 <= i < |u.roles| :: RoleEq(u.roles[i], other)
  }

  /** `current_user`: a logged-in user or the anonymous user. */
  datatype CurrentUser = Anonymous | Authenticated(user: User)

  /** `current_user.roles`: the anonymous user holds an empty immutable list. */
  function CurrentRoles(c: CurrentUser): seq<Role> {
    match c
    case Anonymous => []
    case Authenticated(u) => u.roles
  }

  /** `current_user.has_role(role)`: always false for the anonymous user. */
  function CurrentHasRole(c: CurrentUser, other: Operand): (has: bool)
    ensures c.Anonymous? ==> !has
    ensures c.Authenticated? ==> (has <==> OperandName(other).Some? && OperandName(other).value in RoleNames(c.user.roles))
  {
    match c
    case Anonymous => false
    case Authenticated(u) => HasRole(u, other)
  }

  /** The needs an identity provides to Flask-Principal. */
  datatype Need = UserNeed(id: nat) | RoleNeed(name: string)

  /** `on_identity_loaded`: a user with an id provides `UserNeed(id)` and one
      `RoleNeed` per held role; the anonymous user has no id and no roles. */
  function ProvidedNeeds(c: CurrentUser): (needs: set<Need>)
    ensures c.Anonymous? ==> needs == {}
    ensures c.Authenticated? ==>
      forall n :: n in needs <==>
        (n == UserNeed(c.user.id) || (n.RoleNeed? && n.name in RoleNames(c.user.roles)))
  {
    match c
    case Anonymous => {}
    case Authenticated(u) =>
      {UserNeed(u.id)} + set i | 0 <= i < |u.roles| :: RoleNeed(u.roles[i].name)
  }

  /** Whether the session's user is this user (Flask-Login compares users by id;
      the anonymous user equals no user). */
  predicate IsCurrent(u: User, c: CurrentUser) {
    c.Authenticated? && c.user.id == u.id
  }
}
