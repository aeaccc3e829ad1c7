/**
 * The authentication resolvers of app/graphql/resolvers/auth.ts: login,
 * register, socialAuth, refreshToken, logout and me, each a transition of
 * the store that yields a result or the error the resolver throws.
 */
module AuthResolvers {
  import opened Rows
  import opened Jwt
  import opened AuthUtils

  /** The user part of an AuthPayload; `isActive` is only filled in by login. */
  datatype PublicUser = PublicUser(
    id: Id,
    email: string,
    firstName: Option<string>,
    lastName: Option<string>,
    profileImage: Option<string>,
    isActive: Option<bool>)

  datatype AuthPayload = AuthPayload(token: string, refreshToken: string, user: PublicUser)

  datatype LoginInput = LoginInput(email: string, password: string, siteDomain: Option<string>, pagePath: Option<string>)

  datatype RegisterInput = RegisterInput(
    email: string,
    password: string,
    firstName: Option<string>,
    lastName: Option<string>,
    siteDomain: Option<string>,
    pagePath: Option<string>)

  datatype SocialAuthInput = SocialAuthInput(provider: string, authCode: string, siteDomain: Option<string>, pagePath: Option<string>)

  /** The claim refreshToken reads (`payload.user_id`). */
  const RefreshUserIdClaim: string := "user_id"

  function AsValue(v: Option<string>): Value {
    if v.Some? then Text(v.value) else Undefined
  }

  /** `{ site_domain, page_path }`: both keys are present even when their values are not. */
  function SiteContext(siteDomain: Option<string>, pagePath: Option<string>): map<string, Value> {
    map["site_domain" := AsValue(siteDomain), "page_path" := AsValue(pagePath)]
  }

  /** `toLowerCase()` on the letters A to Z. */
  function Lower(s: string): (r: string)
    ensures |r| == |s|
    ensures forall i :: 0 <= i < |s| ==> r[i] == (if 'A' <= s[i] <= 'Z' then (s[i] as int + 32) as char else s[i])
  {
    if |s| == 0 then []
    else [if 'A' <= s[0] <= 'Z' then (s[0] as int + 32) as char else s[0]] + Lower(s[1..])
  }

  /** `socialProvider.findFirst({ where: { name, is_active: true } })`. */
  function FindActiveProvider(providers: seq<SocialProvider>, name: string): (r: Option<SocialProvider>)
    ensures r.Some? ==> r.value in providers && r.value.name == name && r.value.isActive
    ensures r.None? <==> forall p :: p in providers ==> !(p.name == name && p.isActive)
  {
    if |providers| == 0 then None
    else if providers[0].name == name && providers[0].isActive then Some(providers[0])
    else FindActiveProvider(providers[1..], name)
  }

  /** Give a new user the system-wide `user` role, if that role exists. */
  function AssignDefaultRole(st: Store, userId: Id): (st': Store)
    ensures st'.(userRoles := st.userRoles) == st
    ensures FindSystemRole(st.roles, "user").None? ==> st' == st
    ensures FindSystemRole(st.roles, "user").Some? ==>
              st'.userRoles == st.userRoles + [UserRole(userId, FindSystemRole(st.roles, "user").value.id, None)]
  {
    match FindSystemRole(st.roles, "user")
    case None => st
    case Some(role) => st.(userRoles := st.userRoles + [UserRole(userId, role.id, None)])
  }

  /** Exactly one session row, for `userId` and `token`, was appended. */
  ghost predicate SessionAppended(st: Store, st': Store, userId: Id, token: string) {
    && |st'.sessions| == |st.sessions| + 1
    && st'.sessions[..|st.sessions|] == st.sessions
    && st'.sessions[|st.sessions|].userId == userId
    && st'.sessions[|st.sessions|].token == token
  }

  /** One audit row for `action` by `userId` was appended, or none when the table fails. */
  ghost predicate Audited(st: Store, st': Store, req: Request, action: string, userId: Id) {
    if AuditTable in req.down then st'.auditLogs == st.auditLogs
    else
      && |st'.auditLogs| == |st.auditLogs| + 1
      && st'.auditLogs[..|st.auditLogs|] == st.auditLogs
      && st'.auditLogs[|st.auditLogs|].action == action
      && st'.auditLogs[|st.auditLogs|].userId == Some(userId)
  }

  /** The email and password identify a user with a password hash. */
  predicate CredentialsMatch(st: Store, email: string, password: string) {
    var u := FindUserByEmail(st.users, email);
    u.Some? && u.value.passwordHash.Some? && ComparePassword(password, u.value.passwordHash.value)
  }

  /** login (app/graphql/resolvers/auth.ts:21-88). */
  function Login(st: Store, req: Request, input: LoginInput): (r: (Result<AuthPayload>, Store))
    ensures r.0.Ok? <==>
              CredentialsMatch(st, input.email, input.password) && FindUserByEmail(st.users, input.email).value.isActive &&
              SessionsTable !in req.down
    ensures r.0 == Err(InvalidCredentials) <==> !CredentialsMatch(st, input.email, input.password)
    ensures r.0 == Err(AccountDisabled) <==>
              CredentialsMatch(st, input.email, input.password) && !FindUserByEmail(st.users, input.email).value.isActive
    ensures r.0 == Err(StoreUnavailable) <==>
              CredentialsMatch(st, input.email, input.password) && FindUserByEmail(st.users, input.email).value.isActive &&
              SessionsTable in req.down
    ensures r.0.Err? ==> r.1 == st
    ensures r.0.Ok? ==>
      var u := FindUserByEmail(st.users, input.email).value;
      && u.isActive
      && r.0.value.user == PublicUser(u.id, u.email, u.firstName, u.lastName, u.profileImage, Some(u.isActive))
      && r.0.value.token == GenerateAccessToken(req.cfg, u.id, req.now)
      && r.0.value.refreshToken == GenerateRefreshToken(req.cfg, u.id, req.now)
      && SessionAppended(st, r.1, u.id, r.0.value.token)
      && Audited(st, r.1, req, "LOGIN", u.id)
      && r.1.(sessions := st.sessions, auditLogs := st.auditLogs) == st
  {
    match FindUserByEmail(st.users, input.email)
    case None => (Err(InvalidCredentials), st)
    case Some(u) =>
      if u.passwordHash.None? then (Err(InvalidCredentials), st)
      else if !ComparePassword(input.password, u.passwordHash.value) then (Err(InvalidCredentials), st)
      else if !u.isActive then (Err(AccountDisabled), st)
      else
        match CreateSession(st, req, u.id)
        case Err(e) => (Err(e), st)
        case Ok((token, st1)) =>
          var refresh := GenerateRefreshToken(req.cfg, u.id, req.now);
          var st2 := CreateAuditLog(st1, req, "LOGIN", Some(u.id), Some(SiteContext(input.siteDomain, input.pagePath)));
          (Ok(AuthPayload(token, refresh, PublicUser(u.id, u.email, u.firstName, u.lastName, u.profileImage, Some(u.isActive)))), st2)
  }

  /**
   * The site and page a login names are never looked up: they change neither
   * the outcome nor any table but the audit row's details.
   */
  lemma LoginIgnoresSiteAndPage(st: Store, req: Request, input: LoginInput, domain: Option<string>, path: Option<string>)
    ensures var other := input.(siteDomain := domain, pagePath := path);
            && Login(st, req, other).0 == Login(st, req, input).0
            && Login(st, req, other).1.(auditLogs := st.auditLogs) == Login(st, req, input).1.(auditLogs := st.auditLogs)
  {
  }

  /** register (app/graphql/resolvers/auth.ts:91-157). */
  function Register(st: Store, req: Request, input: RegisterInput): (r: (Result<AuthPayload>, Store))
    ensures r.0 == Err(AlreadyRegistered) <==> FindUserByEmail(st.users, input.email).Some?
    ensures FindUserByEmail(st.users, input.email).Some? ==> r.1 == st
    ensures r.0 == Err(StoreUnavailable) <==> FindUserByEmail(st.users, input.email).None? && SessionsTable in req.down
    ensures r.0.Err? ==> r.0.error in {AlreadyRegistered, StoreUnavailable}
    ensures FindUserByEmail(st.users, input.email).None? ==>
      && |r.1.users| == |st.users| + 1
      && r.1.users[..|st.users|] == st.users
      && var u := r.1.users[|st.users|];
         && (forall v :: v in st.users ==> v.id != u.id)
         && u == User(u.id, input.email, Some(HashPassword(input.password, req.salt)),
                      input.firstName, input.lastName, None, true, None)
         && r.1.userRoles == AssignDefaultRole(st.(users := r.1.users), u.id).userRoles
         && r.1.(users := st.users, userRoles := st.userRoles, sessions := st.sessions, auditLogs := st.auditLogs) == st
         && (r.0.Err? ==> r.1.sessions == st.sessions && r.1.auditLogs == st.auditLogs)
         && (r.0.Ok? ==>
               && r.0.value.user == PublicUser(u.id, input.email, input.firstName, input.lastName, None, None)
               && r.0.value.token == GenerateAccessToken(req.cfg, u.id, req.now)
               && r.0.value.refreshToken == GenerateRefreshToken(req.cfg, u.id, req.now)
               && SessionAppended(st, r.1, u.id, r.0.value.token)
               && Audited(st, r.1, req, "REGISTER", u.id))
  {
    match FindUserByEmail(st.users, input.email)
    case Some(_) => (Err(AlreadyRegistered), st)
    case None =>
      var id := NewUserId(st);
      var u := User(id, input.email, Some(HashPassword(input.password, req.salt)),
                    input.firstName, input.lastName, None, true, None);
      var st1 := AssignDefaultRole(st.(users := st.users + [u]), id);
      assert st1.users[..|st.users|] == st.users;
      match CreateSession(st1, req, id)
      case Err(e) => (Err(e), st1)
      case Ok((token, st2)) =>
        var refresh := GenerateRefreshToken(req.cfg, id, req.now);
        var st3 := CreateAuditLog(st2, req, "REGISTER", Some(id), Some(SiteContext(input.siteDomain, input.pagePath)));
        (Ok(AuthPayload(token, refresh, PublicUser(id, input.email, input.firstName, input.lastName, None, None))), st3)
  }

  /** Registration never lets two accounts share an email. */
  lemma RegisterKeepsEmailsUnique(st: Store, req: Request, input: RegisterInput)
    requires EmailsUnique(st.users)
    ensures EmailsUnique(Register(st, req, input).1.users)
  {
    var users := Register(st, req, input).1.users;
    if FindUserByEmail(st.users, input.email).None? {
      forall i, j | 0 <= i < j < |users| ensures users[i].email != users[j].email {
        if j == |st.users| {
          assert users[i] == st.users[i];
        } else {
          assert users[i] == st.users[i] && users[j] == st.users[j];
        }
      }
    }
  }

  /** The address a social login is filed under: `${lower(provider)}_${code}@example.com`. */
  function SocialEmail(provider: string, authCode: string): string {
    Lower(provider) + "_" + authCode + "@example.com"
  }

  /** `upsert` keyed by (provider_id, provider_user_id): touch `last_used_at`, or create. */
  function UpsertConnection(conns: seq<SocialConnection>, providerId: Id, providerUserId: string,
                            userId: Id, now: nat, freshId: Id): (r: seq<SocialConnection>)
    ensures (exists c :: c in conns && c.providerId == providerId && c.providerUserId == providerUserId) ==>
              |r| == |conns| &&
              forall i :: 0 <= i < |conns| ==>
                r[i] == (if conns[i].providerId == providerId && conns[i].providerUserId == providerUserId
                         then conns[i].(lastUsedAt := now) else conns[i])
    ensures (forall c :: c in conns ==> !(c.providerId == providerId && c.providerUserId == providerUserId)) ==>
              r == conns + [SocialConnection(freshId, userId, providerId, providerUserId, now)]
  {
    if exists c :: c in conns && c.providerId == providerId && c.providerUserId == providerUserId then
      TouchConnections(conns, providerId, providerUserId, now)
    else conns + [SocialConnection(freshId, userId, providerId, providerUserId, now)]
  }

  function TouchConnections(conns: seq<SocialConnection>, providerId: Id, providerUserId: string, now: nat): (r: seq<SocialConnection>)
    ensures |r| == |conns|
    ensures forall i :: 0 <= i < |conns| ==>
              r[i] == (if conns[i].providerId == providerId && conns[i].providerUserId == providerUserId
                       then conns[i].(lastUsedAt := now) else conns[i])
  {
    if |conns| == 0 then []
    else [if conns[0].providerId == providerId && conns[0].providerUserId == providerUserId
          then conns[0].(lastUsedAt := now) else conns[0]]
         + TouchConnections(conns[1..], providerId, providerUserId, now)
  }

  /** The user a social login signs in: the one filed under the synthetic email, or a new one. */
  function SocialUser(st: Store, provider: string, email: string): (r: (User, Store))
    ensures FindUserByEmail(st.users, email).Some? ==> r == (FindUserByEmail(st.users, email).value, st)
    ensures FindUserByEmail(st.users, email).None? ==>
      && r.0.email == email && r.0.isActive && r.0.passwordHash.None?
      && r.0.firstName == Some(provider + "User")
      && r.1.users == st.users + [r.0]
      && (forall v :: v in st.users ==> v.id != r.0.id)
      && AssignDefaultRole(st.(users := r.1.users), r.0.id) == r.1
  {
    match FindUserByEmail(st.users, email)
    case Some(u) => (u, st)
    case None =>
      var u := User(NewUserId(st), email, None, Some(provider + "User"), None, None, true, None);
      (u, AssignDefaultRole(st.(users := st.users + [u]), u.id))
  }

  /** socialAuth (app/graphql/resolvers/auth.ts:160-253). */
  function SocialAuth(st: Store, req: Request, input: SocialAuthInput): (r: (Result<AuthPayload>, Store))
    ensures r.0.Ok? <==> FindActiveProvider(st.socialProviders, Lower(input.provider)).Some? && SessionsTable !in req.down
    ensures r.0 == Err(UnsupportedProvider(input.provider)) <==>
              FindActiveProvider(st.socialProviders, Lower(input.provider)).None?
    ensures FindActiveProvider(st.socialProviders, Lower(input.provider)).None? ==> r.1 == st
    ensures r.0 == Err(StoreUnavailable) <==>
              FindActiveProvider(st.socialProviders, Lower(input.provider)).Some? && SessionsTable in req.down
    ensures r.0.Err? && FindActiveProvider(st.socialProviders, Lower(input.provider)).Some? ==>
              r.1 == SocialUser(st, input.provider, SocialEmail(input.provider, input.authCode)).1
    ensures r.0.Ok? ==>
      var p := FindActiveProvider(st.socialProviders, Lower(input.provider)).value;
      var email := SocialEmail(input.provider, input.authCode);
      var (u, st1) := SocialUser(st, input.provider, email);
      && r.0.value.user == PublicUser(u.id, email, u.firstName, u.lastName, u.profileImage, None)
      && r.0.value.token == GenerateAccessToken(req.cfg, u.id, req.now)
      && r.0.value.refreshToken == GenerateRefreshToken(req.cfg, u.id, req.now)
      && SessionAppended(st1, r.1, u.id, r.0.value.token)
      && r.1.socialConnections ==
           UpsertConnection(st1.socialConnections, p.id, input.authCode, u.id, req.now, NewConnectionId(st1))
      && Audited(st1, r.1, req, "SOCIAL_LOGIN", u.id)
      && r.1.(sessions := st1.sessions, socialConnections := st1.socialConnections, auditLogs := st1.auditLogs) == st1
  {
    match FindActiveProvider(st.socialProviders, Lower(input.provider))
    case None => (Err(UnsupportedProvider(input.provider)), st)
    case Some(p) =>
      var email := SocialEmail(input.provider, input.authCode);
      var (u, st1) := SocialUser(st, input.provider, email);
      match CreateSession(st1, req, u.id)
      case Err(e) => (Err(e), st1)
      case Ok((token, st2)) =>
        var refresh := GenerateRefreshToken(req.cfg, u.id, req.now);
        var conns := UpsertConnection(st2.socialConnections, p.id, input.authCode, u.id, req.now, NewConnectionId(st1));
        var st3 := st2.(socialConnections := conns);
        var details := map["provider" := Text(input.provider), "site_domain" := AsValue(input.siteDomain),
                           "page_path" := AsValue(input.pagePath)];
        var st4 := CreateAuditLog(st3, req, "SOCIAL_LOGIN", Some(u.id), Some(details));
        (Ok(AuthPayload(token, refresh, PublicUser(u.id, u.email, u.firstName, u.lastName, u.profileImage, None))), st4)
  }

  /**
   * A first social login for a code creates the account: an active,
   * password-less user under the synthetic email with the default role, one
   * session and one connection from the provider's code to that user.
   */
  lemma SocialAuthFirstLogin(st: Store, req: Request, input: SocialAuthInput)
    requires FindActiveProvider(st.socialProviders, Lower(input.provider)).Some?
    requires FindUserByEmail(st.users, SocialEmail(input.provider, input.authCode)).None?
    requires SessionsTable !in req.down
    requires forall c :: c in st.socialConnections ==>
               !(c.providerId == FindActiveProvider(st.socialProviders, Lower(input.provider)).value.id &&
                 c.providerUserId == input.authCode)
    ensures var r := SocialAuth(st, req, input);
      var p := FindActiveProvider(st.socialProviders, Lower(input.provider)).value;
      && r.0.Ok?
      && |r.1.users| == |st.users| + 1 && r.1.users[..|st.users|] == st.users
      && var u := r.1.users[|st.users|];
         && u.id == r.0.value.user.id && u.email == SocialEmail(input.provider, input.authCode)
         && u.isActive && u.passwordHash.None?
         && (forall v :: v in st.users ==> v.id != u.id)
         && r.1.userRoles == AssignDefaultRole(st, u.id).userRoles
         && SessionAppended(st, r.1, u.id, r.0.value.token)
         && |r.1.socialConnections| == |st.socialConnections| + 1
         && r.1.socialConnections[..|st.socialConnections|] == st.socialConnections
         && var c := r.1.socialConnections[|st.socialConnections|];
            c.userId == u.id && c.providerId == p.id && c.providerUserId == input.authCode && c.lastUsedAt == req.now &&
            forall c' :: c' in st.socialConnections ==> c'.id != c.id
  {
    var p := FindActiveProvider(st.socialProviders, Lower(input.provider)).value;
    var (u, st1) := SocialUser(st, input.provider, SocialEmail(input.provider, input.authCode));
    var r := SocialAuth(st, req, input);
    assert st1.socialConnections == st.socialConnections && st1.sessions == st.sessions;
    assert r.1.socialConnections == st.socialConnections + [SocialConnection(NewConnectionId(st1), u.id, p.id, input.authCode, req.now)];
    assert NewConnectionId(st1) == NewConnectionId(st) by {
      assert ConnectionIds(st1) == ConnectionIds(st);
    }
  }

  /**
   * A social login for a known synthetic email creates no user, assigns no
   * role, and signs the user in whether or not the account is active; an
   * existing connection for the code only has `last_used_at` refreshed and
   * keeps its owner.
   */
  lemma SocialAuthExistingUser(st: Store, req: Request, input: SocialAuthInput)
    requires FindActiveProvider(st.socialProviders, Lower(input.provider)).Some?
    requires FindUserByEmail(st.users, SocialEmail(input.provider, input.authCode)).Some?
    requires SessionsTable !in req.down
    requires exists c :: c in st.socialConnections &&
               c.providerId == FindActiveProvider(st.socialProviders, Lower(input.provider)).value.id &&
               c.providerUserId == input.authCode
    ensures var r := SocialAuth(st, req, input);
      && r.0.Ok?
      && r.0.value.user.id == FindUserByEmail(st.users, SocialEmail(input.provider, input.authCode)).value.id
      && r.1.users == st.users && r.1.userRoles == st.userRoles
      && |r.1.socialConnections| == |st.socialConnections|
      && forall i :: 0 <= i < |st.socialConnections| ==>
           r.1.socialConnections[i] == st.socialConnections[i].(lastUsedAt := r.1.socialConnections[i].lastUsedAt)
  {
    var p := FindActiveProvider(st.socialProviders, Lower(input.provider)).value;
    var email := SocialEmail(input.provider, input.authCode);
    var (u, st1) := SocialUser(st, input.provider, email);
    var (token, st2) := CreateSession(st1, req, u.id).value;
    assert st2.socialConnections == st.socialConnections;
  }

  /**
   * refreshToken (app/graphql/resolvers/auth.ts:256-298), with the payload
   * key it reads the user id from as a parameter.
   */
  function RefreshWith(st: Store, req: Request, refreshText: string, claim: string): (r: (Result<AuthPayload>, Store))
    ensures r.0.Ok? <==>
              && SessionsTable !in req.down
              && VerifyToken(req.cfg, refreshText, true, req.now).Some?
              && var id := ClaimValue(VerifyToken(req.cfg, refreshText, true, req.now).value.claims, claim);
                 id.Some? && FindUserById(st.users, id.value).Some? && FindUserById(st.users, id.value).value.isActive
    ensures r.0 == Err(InvalidRefreshToken) <==>
              (VerifyToken(req.cfg, refreshText, true, req.now).None? ||
               ClaimValue(VerifyToken(req.cfg, refreshText, true, req.now).value.claims, claim).None?)
    ensures r.0 == Err(InvalidUser) <==>
              && VerifyToken(req.cfg, refreshText, true, req.now).Some?
              && var id := ClaimValue(VerifyToken(req.cfg, refreshText, true, req.now).value.claims, claim);
                 id.Some? && (FindUserById(st.users, id.value).None? || !FindUserById(st.users, id.value).value.isActive)
    ensures r.0 == Err(StoreUnavailable) <==>
              && SessionsTable in req.down
              && VerifyToken(req.cfg, refreshText, true, req.now).Some?
              && var id := ClaimValue(VerifyToken(req.cfg, refreshText, true, req.now).value.claims, claim);
                 id.Some? && FindUserById(st.users, id.value).Some? && FindUserById(st.users, id.value).value.isActive
    ensures r.0.Err? ==> r.1 == st
    ensures r.0.Ok? ==>
      var id := ClaimValue(VerifyToken(req.cfg, refreshText, true, req.now).value.claims, claim).value;
      var u := FindUserById(st.users, id).value;
      && r.0.value.user == PublicUser(u.id, u.email, u.firstName, u.lastName, u.profileImage, None)
      && r.1.(sessions := st.sessions, auditLogs := st.auditLogs) == st
      && r.0.value.user.id == id
      && r.0.value.token == GenerateAccessToken(req.cfg, id, req.now)
      && r.0.value.refreshToken == GenerateRefreshToken(req.cfg, id, req.now)
      && SessionAppended(st, r.1, id, r.0.value.token)
      && Audited(st, r.1, req, "TOKEN_REFRESH", id)
  {
    match VerifyToken(req.cfg, refreshText, true, req.now)
    case None => (Err(InvalidRefreshToken), st)
    case Some(payload) =>
      match ClaimValue(payload.claims, claim)
      case None => (Err(InvalidRefreshToken), st)
      case Some(userId) =>
        match FindUserById(st.users, userId)
        case None => (Err(InvalidUser), st)
        case Some(u) =>
          if !u.isActive then (Err(InvalidUser), st)
          else
            match CreateSession(st, req, u.id)
            case Err(e) => (Err(e), st)
            case Ok((token, st1)) =>
              var refresh := GenerateRefreshToken(req.cfg, u.id, req.now);
              var st2 := CreateAuditLog(st1, req, "TOKEN_REFRESH", Some(u.id), None);
              (Ok(AuthPayload(token, refresh, PublicUser(u.id, u.email, u.firstName, u.lastName, u.profileImage, None))), st2)
  }

  /** refreshToken as written: the user id is read from `user_id`. */
  function RefreshToken(st: Store, req: Request, refreshText: string): (r: (Result<AuthPayload>, Store))
    ensures r == RefreshWith(st, req, refreshText, RefreshUserIdClaim)
  {
    RefreshWith(st, req, refreshText, RefreshUserIdClaim)
  }

  /** refreshToken reading the key the tokens are signed with, `userId`. */
  function RefreshTokenIntended(st: Store, req: Request, refreshText: string): (r: (Result<AuthPayload>, Store))
    ensures r == RefreshWith(st, req, refreshText, UserIdClaim)
  {
    RefreshWith(st, req, refreshText, UserIdClaim)
  }

  /**
   * Tokens are signed with `userId` but refreshed by `user_id`: no refresh
   * token this service issues is ever accepted, at any time, in any store.
   */
  lemma IssuedRefreshTokensRejected(st: Store, req: Request, userId: Id, iat: nat)
    ensures RefreshToken(st, req, GenerateRefreshToken(req.cfg, userId, iat)) == (Err(InvalidRefreshToken), st)
  {
    var t := GenerateRefreshToken(req.cfg, userId, iat);
    var v := VerifyToken(req.cfg, t, true, req.now);
    if v.Some? {
      assert v.value.claims == [Claim(UserIdClaim, userId)];
      assert ClaimValue(v.value.claims, RefreshUserIdClaim).None?;
    }
  }

  /**
   * Reading `userId` instead, every refresh token issued for an active user
   * is accepted until it expires, and mints a session for that user.
   */
  lemma IssuedRefreshTokensAccepted(st: Store, req: Request, userId: Id, iat: nat)
    requires req.now < iat + RefreshLifetime(req.cfg)
    requires FindUserById(st.users, userId).Some? && FindUserById(st.users, userId).value.isActive
    requires SessionsTable !in req.down
    ensures var r := RefreshTokenIntended(st, req, GenerateRefreshToken(req.cfg, userId, iat));
            r.0.Ok? && r.0.value.user.id == userId && SessionAppended(st, r.1, userId, r.0.value.token)
  {
    TokenClassesSeparate(req.cfg, userId, iat, req.now);
  }

  /** Under the default secrets an access token is no refresh token either. */
  lemma AccessTokenRefusedForRefresh(st: Store, req: Request, userId: Id, iat: nat)
    requires req.cfg.jwtSecret.None? && req.cfg.jwtRefreshSecret.None?
    ensures RefreshToken(st, req, GenerateAccessToken(req.cfg, userId, iat)) == (Err(InvalidRefreshToken), st)
  {
    DefaultSecretsSeparate(req.cfg, userId, iat, req.now);
  }

  /**
   * The success path needs a token signed elsewhere with the refresh secret
   * and a `user_id` claim; for an active user it mints a new session.
   */
  lemma RefreshWithUserIdClaim(st: Store, req: Request, userId: Id, iat: nat, exp: nat)
    requires req.now < exp
    requires FindUserById(st.users, userId).Some? && FindUserById(st.users, userId).value.isActive
    requires SessionsTable !in req.down
    ensures var r := RefreshToken(st, req, Sign([Claim(RefreshUserIdClaim, userId)], RefreshSecret(req.cfg), iat, exp));
            r.0.Ok? && r.0.value.user.id == userId
  {
    VerifySign([Claim(RefreshUserIdClaim, userId)], RefreshSecret(req.cfg), iat, exp, RefreshSecret(req.cfg), req.now);
  }

  /** `context.user && context.token`: a caller and a non-empty bearer token. */
  predicate SignedIn(ctx: Context) {
    ctx.user.Some? && ctx.token.Some? && ctx.token.value != ""
  }

  /** logout (app/graphql/resolvers/auth.ts:301-322): deletion and audit swallow their failures. */
  function Logout(st: Store, req: Request, ctx: Context): (r: (bool, Store))
    ensures r.0
    ensures !SignedIn(ctx) ==> r.1 == st
    ensures SignedIn(ctx) && SessionsTable !in req.down ==>
              forall s :: s in r.1.sessions <==> s in st.sessions && s.token != ctx.token.value
    ensures SignedIn(ctx) && SessionsTable in req.down ==> r.1.sessions == st.sessions
    ensures SignedIn(ctx) ==> Audited(st, r.1, req, "LOGOUT", ctx.user.value.id)
    ensures r.1.(sessions := st.sessions, auditLogs := st.auditLogs) == st
  {
    if !SignedIn(ctx) then (true, st)
    else
      var (_, st1) := DeleteSession(st, req, ctx.token.value);
      var st2 := CreateAuditLog(st1, req, "LOGOUT", Some(ctx.user.value.id), None);
      (true, st2)
  }

  /**
   * Logging out ends the session the request was authenticated by: the
   * same bearer token no longer validates.
   */
  lemma LogoutEndsSession(st: Store, req: Request, ctx: Context, req': Request)
    requires SignedIn(ctx) && SessionsTable !in req.down && SessionsTable !in req'.down
    ensures ValidateSession(Logout(st, req, ctx).1, req', ctx.token.value).value.0.None?
  {
    var st' := Logout(st, req, ctx).1;
    var t := ctx.token.value;
    assert forall s :: s in st'.sessions ==> s.token != t;
  }

  /** me (app/graphql/resolvers/auth.ts:325-333): the caller's current row, re-read. */
  function Me(st: Store, ctx: Context): (r: Option<User>)
    ensures ctx.user.None? ==> r.None?
    ensures r.Some? ==> r.value in st.users && r.value.id == ctx.user.value.id
    ensures ctx.user.Some? && (exists u :: u in st.users && u.id == ctx.user.value.id) ==> r.Some?
  {
    if ctx.user.None? then None else FindUserById(st.users, ctx.user.value.id)
  }
}
