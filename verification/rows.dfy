/**
 * The abstract relational store the resolvers read and write: one immutable
 * sequence of rows per table, in the order the database would return them
 * when a query has no `orderBy`. Identifiers (uuids for users, sessions,
 * sites and pages; integers for roles and permissions) are all natural
 * numbers here. A new row takes one more than the largest id of its table.
 */
module Rows {

  datatype Option<+T> = None | Some(value: T)

  /** The errors the resolvers throw, one constructor per distinct message. */
  datatype Error =
    | InvalidCredentials        // wrong email or password, deliberately one message
    | AccountDisabled
    | AlreadyRegistered
    | UnsupportedProvider(provider: string)
    | InvalidRefreshToken
    | InvalidUser
    | AuthenticationRequired
    | AccessDenied
    | UserNotFoundOrSocial
    | WrongCurrentPassword
    | AlreadyConnected
    | RoleNotFound
    | RecordNotFound           // an update or delete of a row that does not exist
    | ConstraintViolation      // a foreign key that names no row
    | StoreUnavailable
    | InvalidArgument          // a query argument the store rejects before running

  datatype Result<+T> = Ok(value: T) | Err(error: Error)

  type Id = nat

  /** bcrypt is uninterpreted: a hash remembers its salt and the secret it was made from. */
  datatype PasswordHash = Bcrypt(salt: nat, secret: string)

  type Metadata = map<string, string>

  datatype User = User(
    id: Id,
    email: string,
    passwordHash: Option<PasswordHash>,
    firstName: Option<string>,
    lastName: Option<string>,
    profileImage: Option<string>,
    isActive: bool,
    metadata: Option<Metadata>)

  datatype Session = Session(
    id: Id,
    userId: Id,
    token: string,
    expiresAt: nat,
    ipAddress: Option<string>,
    userAgent: Option<string>,
    createdAt: nat,
    lastActiveAt: nat)

  datatype Site = Site(id: Id, domain: string)

  datatype Page = Page(id: Id, siteId: Id, path: string)

  /** A role with `siteId == None` is system-wide. */
  datatype Role = Role(id: Id, name: string, description: Option<string>, siteId: Option<Id>)

  /** Assignment of a role to a user, optionally scoped to one site. */
  datatype UserRole = UserRole(userId: Id, roleId: Id, siteId: Option<Id>)

  datatype Permission = Permission(id: Id, code: string, name: string, description: Option<string>)

  /** A grant of a permission to a role at system, site or page scope. */
  datatype RolePermission = RolePermission(roleId: Id, permissionId: Id, siteId: Option<Id>, pageId: Option<Id>)

  datatype SocialProvider = SocialProvider(id: Id, name: string, isActive: bool)

  datatype SocialConnection = SocialConnection(
    id: Id,
    userId: Id,
    providerId: Id,
    providerUserId: string,
    lastUsedAt: nat)

  /** A value placed in an audit log's details object; `Undefined` keeps its key. */
  datatype Value = Text(text: string) | Number(n: nat) | Undefined

  /** What an audit row's details column holds. */
  datatype Details =
    | Recorded(fields: map<string, Value>)
    | Defaulted(timestamp: nat, source: string, kind: string)

  datatype AuditLog = AuditLog(
    userId: Option<Id>,
    action: string,
    timestamp: nat,
    ipAddress: Option<string>,
    details: Details)

  datatype Store = Store(
    users: seq<User>,
    sessions: seq<Session>,
    sites: seq<Site>,
    pages: seq<Page>,
    roles: seq<Role>,
    userRoles: seq<UserRole>,
    permissions: seq<Permission>,
    rolePermissions: seq<RolePermission>,
    socialProviders: seq<SocialProvider>,
    socialConnections: seq<SocialConnection>,
    auditLogs: seq<AuditLog>)

  /** Tables whose queries the model lets fail. */
  datatype Table = SessionsTable | AuditTable | RolesTable

  /** The logged-in caller the middleware attaches: only id and email. */
  datatype Caller = Caller(id: Id, email: string)

  /** The resolver context: the attached caller and the bearer token it came with. */
  datatype Context = Context(user: Option<Caller>, token: Option<string>)

  /** Process-wide configuration; `None` stands for an unset or empty variable. */
  datatype Config = Config(
    jwtSecret: Option<string>,
    jwtRefreshSecret: Option<string>,
    jwtExpiresIn: Option<nat>,
    jwtRefreshExpiresIn: Option<nat>)

  /**
   * Everything a request brings besides its arguments: the configuration,
   * the clock (seconds), the client address and agent, the salt bcrypt would
   * draw, and which tables are failing.
   */
  datatype Request = Request(
    cfg: Config,
    now: nat,
    ip: Option<string>,
    userAgent: Option<string>,
    salt: nat,
    down: set<Table>)

  /** One more than every element of `ids`. */
  function FreshId(ids: seq<Id>): (r: Id)
    ensures forall i :: 0 <= i < |ids| ==> ids[i] < r
  {
    if |ids| == 0 then 1
    else
      var rest := FreshId(ids[1..]);
      assert forall i :: 1 <= i < |ids| ==> ids[i] == ids[1..][i - 1];
      if ids[0] < rest then rest else ids[0] + 1
  }

  function UserIds(st: Store): seq<Id> {
    seq(|st.users|, i requires 0 <= i < |st.users| => st.users[i].id)
  }

  function SessionIds(st: Store): seq<Id> {
    seq(|st.sessions|, i requires 0 <= i < |st.sessions| => st.sessions[i].id)
  }

  function RoleIds(st: Store): seq<Id> {
    seq(|st.roles|, i requires 0 <= i < |st.roles| => st.roles[i].id)
  }

  function ConnectionIds(st: Store): seq<Id> {
    seq(|st.socialConnections|, i requires 0 <= i < |st.socialConnections| => st.socialConnections[i].id)
  }

  function NewUserId(st: Store): (r: Id)
    ensures forall u :: u in st.users ==> u.id != r
  {
    var ids := UserIds(st);
    assert forall i :: 0 <= i < |st.users| ==> ids[i] == st.users[i].id;
    FreshId(ids)
  }

  function NewSessionId(st: Store): (r: Id)
    ensures forall s :: s in st.sessions ==> s.id != r
  {
    var ids := SessionIds(st);
    assert forall i :: 0 <= i < |st.sessions| ==> ids[i] == st.sessions[i].id;
    FreshId(ids)
  }

  function NewRoleId(st: Store): (r: Id)
    ensures forall x :: x in st.roles ==> x.id != r
  {
    var ids := RoleIds(st);
    assert forall i :: 0 <= i < |st.roles| ==> ids[i] == st.roles[i].id;
    FreshId(ids)
  }

  function NewConnectionId(st: Store): (r: Id)
    ensures forall c :: c in st.socialConnections ==> c.id != r
  {
    var ids := ConnectionIds(st);
    assert forall i :: 0 <= i < |st.socialConnections| ==> ids[i] == st.socialConnections[i].id;
    FreshId(ids)
  }

  /** `findUnique({ where: { email } })`: the first user with exactly this email. */
  function FindUserByEmail(users: seq<User>, email: string): (r: Option<User>)
    ensures r.Some? ==> r.value in users && r.value.email == email
    ensures r.None? <==> forall u :: u in users ==> u.email != email
  {
    if |users| == 0 then None
    else if users[0].email == email then Some(users[0])
    else FindUserByEmail(users[1..], email)
  }

  /** `findUnique({ where: { id } })`: the first user with this id. */
  function FindUserById(users: seq<User>, id: Id): (r: Option<User>)
    ensures r.Some? ==> r.value in users && r.value.id == id
    ensures r.None? <==> forall u :: u in users ==> u.id != id
  {
    if |users| == 0 then None
    else if users[0].id == id then Some(users[0])
    else FindUserById(users[1..], id)
  }

  /** `role.findFirst({ where: { name, site_id: null } })`. */
  function FindSystemRole(roles: seq<Role>, name: string): (r: Option<Role>)
    ensures r.Some? ==> r.value in roles && r.value.name == name && r.value.siteId.None?
    ensures r.None? <==> forall x :: x in roles ==> !(x.name == name && x.siteId.None?)
  {
    if |roles| == 0 then None
    else if roles[0].name == name && roles[0].siteId.None? then Some(roles[0])
    else FindSystemRole(roles[1..], name)
  }

  /** The role found is the earliest system-wide one with the name, as `findFirst` promises. */
  lemma {:induction false} FindSystemRoleFirst(roles: seq<Role>, name: string, j: nat)
    requires j < |roles| && roles[j].name == name && roles[j].siteId.None?
    requires forall k :: 0 <= k < j ==> !(roles[k].name == name && roles[k].siteId.None?)
    ensures FindSystemRole(roles, name) == Some(roles[j])
  {
    if j > 0 {
      assert !(roles[0].name == name && roles[0].siteId.None?);
      forall k | 0 <= k < j - 1 ensures !(roles[1..][k].name == name && roles[1..][k].siteId.None?) {
        assert roles[1..][k] == roles[k + 1];
      }
      FindSystemRoleFirst(roles[1..], name, j - 1);
    }
  }

  /** A user with no email shared with any other row. */
  ghost predicate EmailsUnique(users: seq<User>) {
    forall i, j :: 0 <= i < j < |users| ==> users[i].email != users[j].email
  }

  /** The `users` table with the row whose id is `id` replaced by `u`. */
  function ReplaceUser(users: seq<User>, id: Id, u: User): (r: seq<User>)
    ensures |r| == |users|
    ensures forall i :: 0 <= i < |users| ==> r[i] == (if users[i].id == id then u else users[i])
  {
    if |users| == 0 then []
    else [if users[0].id == id then u else users[0]] + ReplaceUser(users[1..], id, u)
  }

  /** The rows of `s` satisfying `p`, in order (a `deleteMany` keeps the complement). */
  function Keep<T(!new)>(s: seq<T>, p: T -> bool): (r: seq<T>)
    ensures |r| <= |s|
    ensures forall x :: x in r <==> x in s && p(x)
    ensures (forall x :: x in s ==> p(x)) ==> r == s
  {
    if |s| == 0 then []
    else if p(s[0]) then [s[0]] + Keep(s[1..], p)
    else Keep(s[1..], p)
  }
}
