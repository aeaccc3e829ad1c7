/**
 * The user resolvers of app/graphql/resolvers/user.ts: listing, reading,
 * updating and deleting users, changing the caller's password, linking and
 * unlinking social accounts, and the administrator's createUser.
 */
module UserResolvers {
  import opened Rows
  import opened AuthUtils
  import opened Permissions
  import opened AuthResolvers

  /** `skip` and `take` when the query leaves them out. */
  const DefaultSkip: nat := 0
  const DefaultTake: nat := 50

  /** users, userCount and createUser: an authenticated caller who passes `isAdmin`. */
  function AdminGate(st: Store, ctx: Context): (r: Result<Caller>)
    ensures r == Err(AuthenticationRequired) <==> ctx.user.None?
    ensures r == Err(AccessDenied) <==> ctx.user.Some? && !IsAdmin(st, ctx.user.value.id)
    ensures r.Ok? <==> ctx.user.Some? && IsAdmin(st, ctx.user.value.id)
    ensures r.Ok? ==> r.value == ctx.user.value
  {
    if ctx.user.None? then Err(AuthenticationRequired)
    else if !IsAdmin(st, ctx.user.value.id) then Err(AccessDenied)
    else Ok(ctx.user.value)
  }

  /** user, updateUser and deleteUser: the caller themself, or an administrator. */
  function SelfOrAdminGate(st: Store, ctx: Context, target: Id): (r: Result<Caller>)
    ensures r == Err(AuthenticationRequired) <==> ctx.user.None?
    ensures r == Err(AccessDenied) <==>
              ctx.user.Some? && ctx.user.value.id != target && !IsAdmin(st, ctx.user.value.id)
    ensures r.Ok? <==> ctx.user.Some? && (ctx.user.value.id == target || IsAdmin(st, ctx.user.value.id))
    ensures r.Ok? ==> r.value == ctx.user.value
  {
    if ctx.user.None? then Err(AuthenticationRequired)
    else if ctx.user.value.id != target && !IsAdmin(st, ctx.user.value.id) then Err(AccessDenied)
    else Ok(ctx.user.value)
  }

  /**
   * Acting on oneself never consults the role tables: whatever the roles and
   * assignments, the gate opens; and any administrator passes it for anyone.
   */
  lemma SelfOrAdminGateSound(st: Store, ctx: Context, target: Id, roles: seq<Role>, assignments: seq<UserRole>)
    ensures ctx.user.Some? && ctx.user.value.id == target ==>
              SelfOrAdminGate(st.(roles := roles, userRoles := assignments), ctx, target) == Ok(ctx.user.value)
    ensures AdminGate(st, ctx).Ok? ==> SelfOrAdminGate(st, ctx, target) == AdminGate(st, ctx)
  {
  }

  function Min(a: nat, b: nat): nat {
    if a <= b then a else b
  }

  /**
   * users (app/graphql/resolvers/user.ts:7-23): a `skip`/`take` window of the
   * users table. Prisma rejects a negative `skip`; a negative `take` counts
   * the window back from the end of the table, `skip` rows before it.
   */
  function Users(st: Store, ctx: Context, skip: Option<int>, take: Option<int>): (r: Result<seq<User>>)
    ensures var s := if skip.Some? then skip.value else DefaultSkip;
            r.Ok? <==> AdminGate(st, ctx).Ok? && 0 <= s
    ensures AdminGate(st, ctx).Err? ==> r == Err(AdminGate(st, ctx).error)
    ensures var s := if skip.Some? then skip.value else DefaultSkip;
            r == Err(InvalidArgument) <==> AdminGate(st, ctx).Ok? && s < 0
    ensures r.Ok? ==>
      var s := if skip.Some? then skip.value else DefaultSkip;
      var n := if take.Some? then take.value else DefaultTake;
      && 0 <= s
      && (0 <= n ==>
            && |r.value| == (if s >= |st.users| then 0 else Min(n, |st.users| - s))
            && forall i :: 0 <= i < |r.value| ==> r.value[i] == st.users[s + i])
      && (n < 0 ==>
            && |r.value| == (if s >= |st.users| then 0 else Min(-n, |st.users| - s))
            && forall i :: 0 <= i < |r.value| ==> r.value[i] == st.users[|st.users| - s - |r.value| + i])
  {
    match AdminGate(st, ctx)
    case Err(e) => Err(e)
    case Ok(_) =>
      var s := if skip.Some? then skip.value else DefaultSkip;
      var n := if take.Some? then take.value else DefaultTake;
      if s < 0 then Err(InvalidArgument)
      else if s >= |st.users| then Ok([])
      else if n >= 0 then Ok(st.users[s..s + Min(n, |st.users| - s)])
      else
        var end := |st.users| - s;
        Ok(st.users[end - Min(-n, end)..end])
  }

  /** Counting back from the end is the forward window that ends `skip` rows before the end. */
  lemma UsersBackwardIsWindow(st: Store, ctx: Context, skip: nat, k: nat)
    requires AdminGate(st, ctx).Ok?
    requires 0 < k && skip + k <= |st.users|
    ensures Users(st, ctx, Some(skip as int), Some(0 - k as int)) == Users(st, ctx, Some(|st.users| - skip - k), Some(k))
  {
    var a := Users(st, ctx, Some(skip as int), Some(0 - k as int)).value;
    var b := Users(st, ctx, Some(|st.users| - skip - k), Some(k)).value;
    assert |a| == |b| == k;
    forall i | 0 <= i < k ensures a[i] == b[i] {
    }
  }

  /** Two consecutive pages are the page that spans both. */
  lemma UsersPagesConcatenate(st: Store, ctx: Context, skip: nat, a: nat, b: nat)
    requires AdminGate(st, ctx).Ok?
    ensures Users(st, ctx, Some(skip), Some(a)).value + Users(st, ctx, Some(skip + a), Some(b)).value ==
            Users(st, ctx, Some(skip), Some(a + b)).value
  {
    var p, q, w := Users(st, ctx, Some(skip), Some(a)).value, Users(st, ctx, Some(skip + a), Some(b)).value,
                   Users(st, ctx, Some(skip), Some(a + b)).value;
    assert |p + q| == |w|;
    forall i | 0 <= i < |w|
      ensures (p + q)[i] == w[i]
    {
      if i >= |p| {
        assert (p + q)[i] == q[i - |p|];
      }
    }
  }

  /** userCount (app/graphql/resolvers/user.ts:26-38). */
  function UserCount(st: Store, ctx: Context): (r: Result<nat>)
    ensures r.Ok? <==> AdminGate(st, ctx).Ok?
    ensures r.Err? ==> r.error == AdminGate(st, ctx).error
    ensures r.Ok? ==> r.value == |st.users|
  {
    match AdminGate(st, ctx)
    case Err(e) => Err(e)
    case Ok(_) => Ok(|st.users|)
  }

  /** user (app/graphql/resolvers/user.ts:41-57): a missing user is `null`, not an error. */
  function UserById(st: Store, ctx: Context, id: Id): (r: Result<Option<User>>)
    ensures r.Ok? <==> SelfOrAdminGate(st, ctx, id).Ok?
    ensures r.Err? ==> r.error == SelfOrAdminGate(st, ctx, id).error
    ensures r.Ok? ==> (r.value.Some? <==> exists u :: u in st.users && u.id == id)
    ensures r.Ok? && r.value.Some? ==> r.value.value in st.users && r.value.value.id == id
  {
    match SelfOrAdminGate(st, ctx, id)
    case Err(e) => Err(e)
    case Ok(_) => Ok(FindUserById(st.users, id))
  }

  /** The profile fields updateUser may write; an absent field is left as it is. */
  datatype UserUpdateInput = UserUpdateInput(
    firstName: Option<string>,
    lastName: Option<string>,
    profileImage: Option<string>,
    metadata: Option<Metadata>)

  function Patch(u: User, input: UserUpdateInput): (v: User)
    ensures v.id == u.id && v.email == u.email && v.passwordHash == u.passwordHash && v.isActive == u.isActive
    ensures v.firstName == (if input.firstName.Some? then input.firstName else u.firstName)
    ensures v.lastName == (if input.lastName.Some? then input.lastName else u.lastName)
    ensures v.profileImage == (if input.profileImage.Some? then input.profileImage else u.profileImage)
    ensures v.metadata == (if input.metadata.Some? then input.metadata else u.metadata)
  {
    u.(firstName := if input.firstName.Some? then input.firstName else u.firstName,
       lastName := if input.lastName.Some? then input.lastName else u.lastName,
       profileImage := if input.profileImage.Some? then input.profileImage else u.profileImage,
       metadata := if input.metadata.Some? then input.metadata else u.metadata)
  }

  /** updateUser (app/graphql/resolvers/user.ts:60-95). */
  function UpdateUser(st: Store, ctx: Context, req: Request, id: Id, input: UserUpdateInput): (r: (Result<User>, Store))
    ensures r.0.Err? && SelfOrAdminGate(st, ctx, id).Err? ==> r.0.error == SelfOrAdminGate(st, ctx, id).error
    ensures r.0 == Err(RecordNotFound) <==> SelfOrAdminGate(st, ctx, id).Ok? && FindUserById(st.users, id).None?
    ensures r.0.Ok? <==> SelfOrAdminGate(st, ctx, id).Ok? && FindUserById(st.users, id).Some?
    ensures r.0.Err? ==> r.1 == st
    ensures r.0.Ok? ==>
      && r.0.value == Patch(FindUserById(st.users, id).value, input)
      && |r.1.users| == |st.users|
      && (forall i :: 0 <= i < |st.users| ==> r.1.users[i] == (if st.users[i].id == id then r.0.value else st.users[i]))
      && Audited(st, r.1, req, "USER_UPDATE", ctx.user.value.id)
      && r.1.(users := st.users, auditLogs := st.auditLogs) == st
  {
    match SelfOrAdminGate(st, ctx, id)
    case Err(e) => (Err(e), st)
    case Ok(caller) =>
      match FindUserById(st.users, id)
      case None => (Err(RecordNotFound), st)
      case Some(u) =>
        var v := Patch(u, input);
        var st1 := st.(users := ReplaceUser(st.users, id, v));
        (Ok(v), CreateAuditLog(st1, req, "USER_UPDATE", Some(caller.id), Some(map["targetUserId" := Number(id)])))
  }

  /** No two rows share an id. */
  ghost predicate IdsUnique(users: seq<User>) {
    forall i, j :: 0 <= i < j < |users| ==> users[i].id != users[j].id
  }

  /**
   * Replacing the row with id `id` by one with the same email changes the
   * email lookup only in that row.
   */
  lemma {:induction false} FindByEmailAfterReplace(users: seq<User>, id: Id, v: User, email: string)
    requires IdsUnique(users)
    requires FindUserById(users, id).Some? && v.email == FindUserById(users, id).value.email
    ensures FindUserByEmail(ReplaceUser(users, id, v), email) ==
            (match FindUserByEmail(users, email)
             case None => None
             case Some(w) => Some(if w.id == id then v else w))
  {
    var r := ReplaceUser(users, id, v);
    assert r[1..] == ReplaceUser(users[1..], id, v);
    if users[0].id == id {
      assert r[0] == v && users[0] == FindUserById(users, id).value;
      if users[0].email != email {
        ReplaceAbsent(users, id, v);
      }
    } else {
      assert r[0] == users[0];
      if users[0].email != email {
        IdsUniqueTail(users);
        FindByEmailAfterReplace(users[1..], id, v, email);
      }
    }
  }

  lemma IdsUniqueTail(users: seq<User>)
    requires |users| > 0 && IdsUnique(users)
    ensures IdsUnique(users[1..])
  {
    forall i, j | 0 <= i < j < |users[1..]| ensures users[1..][i].id != users[1..][j].id {
      assert users[1..][i] == users[i + 1] && users[1..][j] == users[j + 1];
    }
  }

  /** With unique ids, the rows after the one carrying `id` are not replaced. */
  lemma ReplaceAbsent(users: seq<User>, id: Id, v: User)
    requires |users| > 0 && users[0].id == id && IdsUnique(users)
    ensures ReplaceUser(users[1..], id, v) == users[1..]
  {
    var r := ReplaceUser(users[1..], id, v);
    forall k | 0 <= k < |users[1..]| ensures r[k] == users[1..][k] {
      assert users[1..][k] == users[k + 1];
    }
  }

  /**
   * A profile update never changes who can sign in: with unique ids, the
   * credential check of login gives the same answer before and after.
   */
  lemma UpdateUserKeepsCredentials(st: Store, ctx: Context, req: Request, id: Id, input: UserUpdateInput,
                                   email: string, password: string)
    requires IdsUnique(st.users)
    requires SelfOrAdminGate(st, ctx, id).Ok? && FindUserById(st.users, id).Some?
    ensures var st' := UpdateUser(st, ctx, req, id, input).1;
            && CredentialsMatch(st', email, password) == CredentialsMatch(st, email, password)
            && (CredentialsMatch(st, email, password) ==>
                  FindUserByEmail(st'.users, email).value.isActive == FindUserByEmail(st.users, email).value.isActive)
  {
    var v := Patch(FindUserById(st.users, id).value, input);
    var st' := UpdateUser(st, ctx, req, id, input).1;
    assert st'.users == ReplaceUser(st.users, id, v);
    FindByEmailAfterReplace(st.users, id, v, email);
  }

  /** updatePassword (app/graphql/resolvers/user.ts:98-137). */
  function UpdatePassword(st: Store, ctx: Context, req: Request, current: string, replacement: string): (r: (Result<bool>, Store))
    ensures r.0.Ok? <==>
              && ctx.user.Some?
              && var u := FindUserById(st.users, ctx.user.value.id);
                 u.Some? && u.value.passwordHash.Some? && ComparePassword(current, u.value.passwordHash.value)
    ensures r.0 == Err(AuthenticationRequired) <==> ctx.user.None?
    ensures r.0 == Err(UserNotFoundOrSocial) <==>
              ctx.user.Some? &&
              (FindUserById(st.users, ctx.user.value.id).None? || FindUserById(st.users, ctx.user.value.id).value.passwordHash.None?)
    ensures r.0 == Err(WrongCurrentPassword) <==>
              && ctx.user.Some?
              && var u := FindUserById(st.users, ctx.user.value.id);
                 u.Some? && u.value.passwordHash.Some? && !ComparePassword(current, u.value.passwordHash.value)
    ensures r.0.Ok? ==> r.0.value
    ensures r.0.Err? ==> r.1 == st
    ensures r.0.Ok? ==>
      var id := ctx.user.value.id;
      && |r.1.users| == |st.users|
      && (forall i :: 0 <= i < |st.users| ==>
            r.1.users[i] == (if st.users[i].id == id
                             then FindUserById(st.users, id).value.(passwordHash := Some(HashPassword(replacement, req.salt)))
                             else st.users[i]))
      && Audited(st, r.1, req, "PASSWORD_UPDATE", id)
      && r.1.(users := st.users, auditLogs := st.auditLogs) == st
  {
    if ctx.user.None? then (Err(AuthenticationRequired), st)
    else
      var id := ctx.user.value.id;
      match FindUserById(st.users, id)
      case None => (Err(UserNotFoundOrSocial), st)
      case Some(u) =>
        if u.passwordHash.None? then (Err(UserNotFoundOrSocial), st)
        else if !ComparePassword(current, u.passwordHash.value) then (Err(WrongCurrentPassword), st)
        else
          var v := u.(passwordHash := Some(HashPassword(replacement, req.salt)));
          var st1 := st.(users := ReplaceUser(st.users, id, v));
          (Ok(true), CreateAuditLog(st1, req, "PASSWORD_UPDATE", Some(id), None))
  }

  /**
   * After a password change the new password signs the caller in and,
   * unless it is the same, the old one no longer does.
   */
  lemma PasswordChangeTakesEffect(st: Store, ctx: Context, req: Request, current: string, replacement: string)
    requires IdsUnique(st.users) && EmailsUnique(st.users)
    requires UpdatePassword(st, ctx, req, current, replacement).0.Ok?
    ensures var st' := UpdatePassword(st, ctx, req, current, replacement).1;
            var email := FindUserById(st.users, ctx.user.value.id).value.email;
            && CredentialsMatch(st', email, replacement)
            && (current != replacement ==> !CredentialsMatch(st', email, current))
  {
    var id := ctx.user.value.id;
    var u := FindUserById(st.users, id).value;
    var v := u.(passwordHash := Some(HashPassword(replacement, req.salt)));
    var st' := UpdatePassword(st, ctx, req, current, replacement).1;
    assert st'.users == ReplaceUser(st.users, id, v);
    assert FindUserByEmail(st.users, u.email) == Some(u) by {
      var w := FindUserByEmail(st.users, u.email).value;
      var i :| 0 <= i < |st.users| && st.users[i] == u;
      var j :| 0 <= j < |st.users| && st.users[j] == w;
      assert i == j;
    }
    FindByEmailAfterReplace(st.users, id, v, u.email);
    CompareHashed(replacement, current, req.salt);
  }

  /** deleteUser (app/graphql/resolvers/user.ts:140-166): the user row and, by cascade, the rows that name it. */
  function DeleteUser(st: Store, ctx: Context, req: Request, id: Id): (r: (Result<bool>, Store))
    ensures r.0.Err? && SelfOrAdminGate(st, ctx, id).Err? ==> r.0.error == SelfOrAdminGate(st, ctx, id).error
    ensures r.0 == Err(RecordNotFound) <==> SelfOrAdminGate(st, ctx, id).Ok? && FindUserById(st.users, id).None?
    ensures r.0.Ok? <==> SelfOrAdminGate(st, ctx, id).Ok? && FindUserById(st.users, id).Some?
    ensures r.0.Ok? ==> r.0.value
    ensures r.0.Err? ==> r.1 == st
    ensures r.0.Ok? ==>
      && (forall u :: u in r.1.users <==> u in st.users && u.id != id)
      && (forall s :: s in r.1.sessions <==> s in st.sessions && s.userId != id)
      && (forall ur :: ur in r.1.userRoles <==> ur in st.userRoles && ur.userId != id)
      && (forall c :: c in r.1.socialConnections <==> c in st.socialConnections && c.userId != id)
      && Audited(st, r.1, req, "USER_DELETE", ctx.user.value.id)
      && r.1.(users := st.users, sessions := st.sessions, userRoles := st.userRoles,
              socialConnections := st.socialConnections, auditLogs := st.auditLogs) == st
  {
    match SelfOrAdminGate(st, ctx, id)
    case Err(e) => (Err(e), st)
    case Ok(caller) =>
      if FindUserById(st.users, id).None? then (Err(RecordNotFound), st)
      else
        var st1 := st.(users := Keep(st.users, (u: User) => u.id != id),
                       sessions := Keep(st.sessions, (s: Session) => s.userId != id),
                       userRoles := Keep(st.userRoles, (ur: UserRole) => ur.userId != id),
                       socialConnections := Keep(st.socialConnections, (c: SocialConnection) => c.userId != id));
        (Ok(true), CreateAuditLog(st1, req, "USER_DELETE", Some(caller.id), Some(map["deletedUserId" := Number(id)])))
  }

  /**
   * A deleted user holds nothing: no permission on any site or page, not
   * admin, and no bearer token authenticates them any more.
   */
  lemma DeletedUserHoldsNothing(st: Store, ctx: Context, req: Request, id: Id,
                                code: string, domain: string, path: string, token: string, req': Request)
    requires DeleteUser(st, ctx, req, id).0.Ok?
    ensures var st' := DeleteUser(st, ctx, req, id).1;
            && !HasPermissionForSite(st', id, code, domain)
            && !HasPermissionForPage(st', id, code, domain, path)
            && !IsAdmin(st', id)
            && (ValidateSession(st', req', token).Ok? && ValidateSession(st', req', token).value.0.Some? ==>
                  ValidateSession(st', req', token).value.0.value.id != id)
  {
    var st' := DeleteUser(st, ctx, req, id).1;
    assert forall ur :: ur in st'.userRoles ==> ur.userId != id;
    assert forall u :: u in st'.users ==> u.id != id;
    var v := ValidateSession(st', req', token);
    if v.Ok? && v.value.0.Some? {
      var joined := JoinedSession(st'.sessions, st'.users, token).value;
      assert joined.1 in st'.users;
    }
  }

  /** The provider_user_id connectSocialAccount files: `mock_${provider}_${authCode}`, provider as given. */
  function MockProviderUserId(provider: string, authCode: string): string {
    "mock_" + provider + "_" + authCode
  }

  /** Whether a connection with this key exists, for any owner. */
  predicate Connected(conns: seq<SocialConnection>, providerId: Id, providerUserId: string) {
    exists c :: c in conns && c.providerId == providerId && c.providerUserId == providerUserId
  }

  /** connectSocialAccount (app/graphql/resolvers/user.ts:169-221). */
  function ConnectSocialAccount(st: Store, ctx: Context, req: Request, provider: string, authCode: string): (r: (Result<SocialConnection>, Store))
    ensures r.0.Ok? <==>
              && ctx.user.Some?
              && FindActiveProvider(st.socialProviders, Lower(provider)).Some?
              && !Connected(st.socialConnections, FindActiveProvider(st.socialProviders, Lower(provider)).value.id,
                            MockProviderUserId(provider, authCode))
    ensures r.0 == Err(AuthenticationRequired) <==> ctx.user.None?
    ensures r.0 == Err(UnsupportedProvider(provider)) <==>
              ctx.user.Some? && FindActiveProvider(st.socialProviders, Lower(provider)).None?
    ensures r.0 == Err(AlreadyConnected) <==>
              && ctx.user.Some?
              && FindActiveProvider(st.socialProviders, Lower(provider)).Some?
              && Connected(st.socialConnections, FindActiveProvider(st.socialProviders, Lower(provider)).value.id,
                           MockProviderUserId(provider, authCode))
    ensures r.0.Err? ==> r.1 == st
    ensures r.0.Ok? ==>
      && r.0.value.userId == ctx.user.value.id
      && r.0.value.providerId == FindActiveProvider(st.socialProviders, Lower(provider)).value.id
      && r.0.value.providerUserId == MockProviderUserId(provider, authCode)
      && r.0.value.lastUsedAt == req.now
      && (forall c :: c in st.socialConnections ==> c.id != r.0.value.id)
      && r.1.socialConnections == st.socialConnections + [r.0.value]
      && Audited(st, r.1, req, "SOCIAL_ACCOUNT_CONNECT", ctx.user.value.id)
      && r.1.(socialConnections := st.socialConnections, auditLogs := st.auditLogs) == st
  {
    if ctx.user.None? then (Err(AuthenticationRequired), st)
    else
      match FindActiveProvider(st.socialProviders, Lower(provider))
      case None => (Err(UnsupportedProvider(provider)), st)
      case Some(p) =>
        var puid := MockProviderUserId(provider, authCode);
        if Connected(st.socialConnections, p.id, puid) then (Err(AlreadyConnected), st)
        else
          var c := SocialConnection(NewConnectionId(st), ctx.user.value.id, p.id, puid, req.now);
          var st1 := st.(socialConnections := st.socialConnections + [c]);
          var details := map["provider" := Text(provider), "provider_user_id" := Text(puid)];
          (Ok(c), CreateAuditLog(st1, req, "SOCIAL_ACCOUNT_CONNECT", Some(ctx.user.value.id), Some(details)))
  }

  /** The same account cannot be connected twice, by the same caller or any other. */
  lemma ConnectTwiceRejected(st: Store, ctx: Context, ctx': Context, req: Request, req': Request, provider: string, authCode: string)
    requires ConnectSocialAccount(st, ctx, req, provider, authCode).0.Ok?
    requires ctx'.user.Some?
    ensures var st' := ConnectSocialAccount(st, ctx, req, provider, authCode).1;
            ConnectSocialAccount(st', ctx', req', provider, authCode) == (Err(AlreadyConnected), st')
  {
    var (r, st') := ConnectSocialAccount(st, ctx, req, provider, authCode);
    assert r.value in st'.socialConnections;
  }

  /** `userSocialConnection.findUnique({ where: { id } })`. */
  function FindConnection(conns: seq<SocialConnection>, id: Id): (r: Option<SocialConnection>)
    ensures r.Some? ==> r.value in conns && r.value.id == id
    ensures r.None? <==> forall c :: c in conns ==> c.id != id
  {
    if |conns| == 0 then None
    else if conns[0].id == id then Some(conns[0])
    else FindConnection(conns[1..], id)
  }

  /** The connection's provider name, as `include: { provider: true }` loads it. */
  function ProviderName(providers: seq<SocialProvider>, id: Id): (r: Value)
    ensures r.Text? <==> exists p :: p in providers && p.id == id
  {
    if |providers| == 0 then Undefined
    else if providers[0].id == id then Text(providers[0].name)
    else ProviderName(providers[1..], id)
  }

  /** disconnectSocialAccount (app/graphql/resolvers/user.ts:224-252). */
  function DisconnectSocialAccount(st: Store, ctx: Context, req: Request, connectionId: Id): (r: (Result<bool>, Store))
    ensures r.0.Ok? <==>
              ctx.user.Some? && FindConnection(st.socialConnections, connectionId).Some? &&
              FindConnection(st.socialConnections, connectionId).value.userId == ctx.user.value.id
    ensures r.0 == Err(AuthenticationRequired) <==> ctx.user.None?
    ensures r.0 == Err(AccessDenied) <==>
              ctx.user.Some? &&
              (FindConnection(st.socialConnections, connectionId).None? ||
               FindConnection(st.socialConnections, connectionId).value.userId != ctx.user.value.id)
    ensures r.0.Ok? ==> r.0.value
    ensures r.0.Err? ==> r.1 == st
    ensures r.0.Ok? ==>
      && (forall c :: c in r.1.socialConnections <==> c in st.socialConnections && c.id != connectionId)
      && Audited(st, r.1, req, "SOCIAL_DISCONNECT", ctx.user.value.id)
      && r.1.(socialConnections := st.socialConnections, auditLogs := st.auditLogs) == st
  {
    if ctx.user.None? then (Err(AuthenticationRequired), st)
    else
      match FindConnection(st.socialConnections, connectionId)
      case None => (Err(AccessDenied), st)
      case Some(c) =>
        if c.userId != ctx.user.value.id then (Err(AccessDenied), st)
        else
          var st1 := st.(socialConnections := Keep(st.socialConnections, (x: SocialConnection) => x.id != connectionId));
          var details := map["provider" := ProviderName(st.socialProviders, c.providerId)];
          (Ok(true), CreateAuditLog(st1, req, "SOCIAL_DISCONNECT", Some(ctx.user.value.id), Some(details)))
  }

  lemma {:induction false} KeepAppendDropped<T(!new)>(s: seq<T>, x: T, p: T -> bool)
    requires forall y :: y in s ==> p(y)
    requires !p(x)
    ensures Keep(s + [x], p) == s
  {
    if |s| == 0 {
      assert Keep([x], p) == Keep([x][1..], p);
    } else {
      assert (s + [x])[1..] == s[1..] + [x];
      assert forall y :: y in s[1..] ==> y in s;
      KeepAppendDropped(s[1..], x, p);
      assert [s[0]] + s[1..] == s;
    }
  }

  /**
   * Connecting an account and then disconnecting the connection it returns,
   * as the same caller, restores the connections table exactly.
   */
  lemma ConnectThenDisconnect(st: Store, ctx: Context, req: Request, req': Request, provider: string, authCode: string)
    requires ConnectSocialAccount(st, ctx, req, provider, authCode).0.Ok?
    ensures var (r, st1) := ConnectSocialAccount(st, ctx, req, provider, authCode);
            var (d, st2) := DisconnectSocialAccount(st1, ctx, req', r.value.id);
            d == Ok(true) && st2.socialConnections == st.socialConnections
  {
    var (r, st1) := ConnectSocialAccount(st, ctx, req, provider, authCode);
    var c := r.value;
    assert FindConnection(st1.socialConnections, c.id) == Some(c) by {
      var f := FindConnection(st1.socialConnections, c.id);
      assert c in st1.socialConnections;
    }
    var keep := (x: SocialConnection) => x.id != c.id;
    KeepAppendDropped(st.socialConnections, c, keep);
  }

  /** The createUser input: every field but the email may be left out. */
  datatype CreateUserInput = CreateUserInput(
    email: string,
    password: Option<string>,
    firstName: Option<string>,
    lastName: Option<string>,
    isActive: Option<bool>,
    metadata: Option<Metadata>)

  /** createUser (app/graphql/resolvers/user.ts:255-321). */
  function CreateUser(st: Store, ctx: Context, req: Request, input: CreateUserInput): (r: (Result<User>, Store))
    ensures r.0.Err? && AdminGate(st, ctx).Err? ==> r.0.error == AdminGate(st, ctx).error
    ensures r.0 == Err(AlreadyRegistered) <==> AdminGate(st, ctx).Ok? && FindUserByEmail(st.users, input.email).Some?
    ensures r.0.Ok? <==> AdminGate(st, ctx).Ok? && FindUserByEmail(st.users, input.email).None?
    ensures r.0.Err? ==> r.1 == st
    ensures EmailsUnique(st.users) ==> EmailsUnique(r.1.users)
    ensures r.0.Ok? ==>
      var u := r.0.value;
      && u.email == input.email
      && u.isActive == (if input.isActive.Some? then input.isActive.value else true)
      && (u.passwordHash.Some? <==> input.password.Some? && input.password.value != "")
      && (u.passwordHash.Some? ==> u.passwordHash.value == HashPassword(input.password.value, req.salt))
      && u.firstName == input.firstName && u.lastName == input.lastName && u.metadata == input.metadata
      && (forall v :: v in st.users ==> v.id != u.id)
      && r.1.users == st.users + [u]
      && r.1.userRoles == AssignDefaultRole(st, u.id).userRoles
      && Audited(st, r.1, req, "USER_CREATE", ctx.user.value.id)
      && r.1.(users := st.users, userRoles := st.userRoles, auditLogs := st.auditLogs) == st
  {
    match AdminGate(st, ctx)
    case Err(e) => (Err(e), st)
    case Ok(caller) =>
      if FindUserByEmail(st.users, input.email).Some? then (Err(AlreadyRegistered), st)
      else
        var hash := if input.password.Some? && input.password.value != ""
                    then Some(HashPassword(input.password.value, req.salt)) else None;
        var active := if input.isActive.Some? then input.isActive.value else true;
        var u := User(NewUserId(st), input.email, hash, input.firstName, input.lastName, None, active, input.metadata);
        var st1 := AssignDefaultRole(st.(users := st.users + [u]), u.id);
        (Ok(u), CreateAuditLog(st1, req, "USER_CREATE", Some(caller.id), Some(map["createdUserId" := Number(u.id)])))
  }

  /**
   * A user created with a non-empty password and not deactivated can log in
   * with it; one created without a password cannot log in with any.
   */
  lemma CreatedUserLogin(st: Store, ctx: Context, req: Request, input: CreateUserInput, req': Request, login: LoginInput)
    requires CreateUser(st, ctx, req, input).0.Ok?
    requires login.email == input.email
    requires SessionsTable !in req'.down
    ensures var st' := CreateUser(st, ctx, req, input).1;
            && (input.password == Some(login.password) && login.password != "" && input.isActive != Some(false) ==>
                  Login(st', req', login).0.Ok?)
            && (input.password.None? || input.password == Some("") ==>
                  Login(st', req', login).0 == Err(InvalidCredentials))
  {
    var (r, st') := CreateUser(st, ctx, req, input);
    var f := FindUserByEmail(st'.users, input.email);
    assert r.value in st'.users;
    assert f == Some(r.value);
    CompareHashed(login.password, login.password, req.salt);
  }
}
