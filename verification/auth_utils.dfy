/**
 * The helpers of app/utils/auth.ts: password hashing, the two token
 * classes, the session table (create, validate, delete) and the audit log
 * writer with its address clean-up and default details.
 */
module AuthUtils {
  import opened Rows
  import opened Jwt

  const DefaultJwtSecret: string := "default-jwt-secret"
  const DefaultJwtRefreshSecret: string := "default-jwt-refresh-secret"

  const Day: nat := 86400
  /** `'7d'`, the default access token lifetime. */
  const DefaultAccessLifetime: nat := 7 * Day
  /** `'30d'`, the default refresh token lifetime. */
  const DefaultRefreshLifetime: nat := 30 * Day
  /** A session row always expires seven days after creation. */
  const SessionLifetime: nat := 7 * Day

  /** The only claim either token class is signed with. */
  const UserIdClaim: string := "userId"

  /** `process.env.X || fallback`: an unset or empty variable yields the fallback. */
  function OrDefault(v: Option<string>, fallback: string): (r: string)
    ensures v.Some? && v.value != "" ==> r == v.value
    ensures v.None? || v.value == "" ==> r == fallback
  {
    if v.Some? && v.value != "" then v.value else fallback
  }

  function AccessSecret(cfg: Config): string {
    OrDefault(cfg.jwtSecret, DefaultJwtSecret)
  }

  function RefreshSecret(cfg: Config): string {
    OrDefault(cfg.jwtRefreshSecret, DefaultJwtRefreshSecret)
  }

  function AccessLifetime(cfg: Config): nat {
    if cfg.jwtExpiresIn.Some? then cfg.jwtExpiresIn.value else DefaultAccessLifetime
  }

  function RefreshLifetime(cfg: Config): nat {
    if cfg.jwtRefreshExpiresIn.Some? then cfg.jwtRefreshExpiresIn.value else DefaultRefreshLifetime
  }

  /** hashPassword: bcrypt with a fresh salt. */
  function HashPassword(password: string, salt: nat): (h: PasswordHash)
    ensures h.salt == salt
  {
    Bcrypt(salt, password)
  }

  /** comparePassword. */
  function ComparePassword(password: string, h: PasswordHash): bool {
    h.secret == password
  }

  /** A hash accepts the password it was made from and no other, whatever the salt. */
  lemma CompareHashed(password: string, candidate: string, salt: nat)
    ensures ComparePassword(candidate, HashPassword(password, salt)) <==> candidate == password
  {
  }

  /** generateAccessToken: `{ userId }` under the access secret, expiring after the access lifetime. */
  function GenerateAccessToken(cfg: Config, userId: Id, now: nat): (t: string)
    ensures |t| > 0 && Letters(t)
    ensures Decode(t) == Some(Decoded(Payload([Claim(UserIdClaim, userId)], now, now + AccessLifetime(cfg)), AccessSecret(cfg)))
  {
    DecodeSign([Claim(UserIdClaim, userId)], AccessSecret(cfg), now, now + AccessLifetime(cfg));
    Sign([Claim(UserIdClaim, userId)], AccessSecret(cfg), now, now + AccessLifetime(cfg))
  }

  /** generateRefreshToken: `{ userId }` under the refresh secret, expiring after the refresh lifetime. */
  function GenerateRefreshToken(cfg: Config, userId: Id, now: nat): (t: string)
    ensures |t| > 0 && Letters(t)
    ensures Decode(t) == Some(Decoded(Payload([Claim(UserIdClaim, userId)], now, now + RefreshLifetime(cfg)), RefreshSecret(cfg)))
  {
    DecodeSign([Claim(UserIdClaim, userId)], RefreshSecret(cfg), now, now + RefreshLifetime(cfg));
    Sign([Claim(UserIdClaim, userId)], RefreshSecret(cfg), now, now + RefreshLifetime(cfg))
  }

  /**
   * verifyToken: checks the text against the refresh secret when
   * `isRefresh` holds and the access secret otherwise; any failure is `None`.
   */
  function VerifyToken(cfg: Config, text: string, isRefresh: bool, now: nat): (r: Option<Payload>)
    ensures r.Some? <==>
              && Decode(text).Some?
              && Decode(text).value.key == (if isRefresh then RefreshSecret(cfg) else AccessSecret(cfg))
              && now < Decode(text).value.payload.exp
    ensures r.Some? ==> r.value == Decode(text).value.payload
  {
    Verify(text, if isRefresh then RefreshSecret(cfg) else AccessSecret(cfg), now)
  }

  /**
   * A token of either class verifies as the other class exactly when the
   * two secrets coincide (and it has not expired).
   */
  lemma TokenClassesSeparate(cfg: Config, userId: Id, iat: nat, now: nat)
    ensures VerifyToken(cfg, GenerateAccessToken(cfg, userId, iat), true, now).Some? <==>
            RefreshSecret(cfg) == AccessSecret(cfg) && now < iat + AccessLifetime(cfg)
    ensures VerifyToken(cfg, GenerateRefreshToken(cfg, userId, iat), false, now).Some? <==>
            RefreshSecret(cfg) == AccessSecret(cfg) && now < iat + RefreshLifetime(cfg)
    ensures VerifyToken(cfg, GenerateAccessToken(cfg, userId, iat), false, now) ==
            (if now < iat + AccessLifetime(cfg) then Some(Payload([Claim(UserIdClaim, userId)], iat, iat + AccessLifetime(cfg))) else None)
    ensures VerifyToken(cfg, GenerateRefreshToken(cfg, userId, iat), true, now) ==
            (if now < iat + RefreshLifetime(cfg) then Some(Payload([Claim(UserIdClaim, userId)], iat, iat + RefreshLifetime(cfg))) else None)
  {
  }

  /** With neither secret configured, a token never verifies as the other class. */
  lemma DefaultSecretsSeparate(cfg: Config, userId: Id, iat: nat, now: nat)
    requires cfg.jwtSecret.None? && cfg.jwtRefreshSecret.None?
    ensures VerifyToken(cfg, GenerateAccessToken(cfg, userId, iat), true, now).None?
    ensures VerifyToken(cfg, GenerateRefreshToken(cfg, userId, iat), false, now).None?
  {
    assert AccessSecret(cfg) == DefaultJwtSecret && RefreshSecret(cfg) == DefaultJwtRefreshSecret;
    assert |DefaultJwtSecret| != |DefaultJwtRefreshSecret|;
    TokenClassesSeparate(cfg, userId, iat, now);
  }

  /** With no lifetimes configured, access tokens last seven days and refresh tokens thirty. */
  lemma DefaultLifetimes(cfg: Config, userId: Id, now: nat)
    requires cfg.jwtExpiresIn.None? && cfg.jwtRefreshExpiresIn.None?
    ensures Decode(GenerateAccessToken(cfg, userId, now)).value.payload.exp == now + 604800
    ensures Decode(GenerateRefreshToken(cfg, userId, now)).value.payload.exp == now + 2592000
  {
  }

  /**
   * createSession: inserts one row for a fresh access token of the user,
   * expiring seven days from now whatever the token lifetime, and returns
   * the token. Fails only when the sessions table does.
   */
  function CreateSession(st: Store, req: Request, userId: Id): (r: Result<(string, Store)>)
    ensures r.Err? <==> SessionsTable in req.down
    ensures r.Err? ==> r.error == StoreUnavailable
    ensures r.Ok? ==>
      var (token, st') := r.value;
      && token == GenerateAccessToken(req.cfg, userId, req.now)
      && |st'.sessions| == |st.sessions| + 1
      && st'.sessions[..|st.sessions|] == st.sessions
      && st'.(sessions := st.sessions) == st
      && var row := st'.sessions[|st.sessions|];
         && row.userId == userId && row.token == token
         && row.expiresAt == req.now + SessionLifetime
         && row.createdAt == req.now && row.lastActiveAt == req.now
         && row.ipAddress == req.ip && row.userAgent == req.userAgent
         && forall s :: s in st.sessions ==> s.id != row.id
  {
    if SessionsTable in req.down then Err(StoreUnavailable)
    else
      var token := GenerateAccessToken(req.cfg, userId, req.now);
      var row := Session(NewSessionId(st), userId, token, req.now + SessionLifetime,
                         req.ip, req.userAgent, req.now, req.now);
      Ok((token, st.(sessions := st.sessions + [row])))
  }

  /** The user fields validateSession hands back. */
  datatype SessionUser = SessionUser(
    id: Id,
    email: string,
    firstName: Option<string>,
    lastName: Option<string>,
    profileImage: Option<string>,
    isActive: bool)

  /** The row of `SELECT s.*, u.* … JOIN users … WHERE s.token = $1 LIMIT 1`. */
  function JoinedSession(sessions: seq<Session>, users: seq<User>, token: string): (r: Option<(Session, User)>)
    ensures r.Some? ==> r.value.0 in sessions && r.value.0.token == token &&
                        FindUserById(users, r.value.0.userId) == Some(r.value.1)
    ensures r.None? <==> forall s :: s in sessions && s.token == token ==> FindUserById(users, s.userId).None?
  {
    if |sessions| == 0 then None
    else if sessions[0].token == token && FindUserById(users, sessions[0].userId).Some? then
      Some((sessions[0], FindUserById(users, sessions[0].userId).value))
    else JoinedSession(sessions[1..], users, token)
  }

  /** `UPDATE sessions SET last_active_at = now WHERE id = $1`. */
  function Touch(sessions: seq<Session>, id: Id, now: nat): (r: seq<Session>)
    ensures |r| == |sessions|
    ensures forall i :: 0 <= i < |sessions| ==>
              r[i] == (if sessions[i].id == id then sessions[i].(lastActiveAt := now) else sessions[i])
  {
    if |sessions| == 0 then []
    else [if sessions[0].id == id then sessions[0].(lastActiveAt := now) else sessions[0]]
         + Touch(sessions[1..], id, now)
  }

  /**
   * validateSession. The joined row's `id` column is ambiguous between the
   * session and the user; it is taken as the user's id, both in the value
   * returned and in the `last_active_at` update that follows.
   */
  function ValidateSession(st: Store, req: Request, token: string): (r: Result<(Option<SessionUser>, Store)>)
    ensures r.Err? <==> SessionsTable in req.down
    ensures r.Ok? && r.value.0.None? ==> r.value.1 == st
    ensures r.Ok? ==> (r.value.0.Some? <==>
              JoinedSession(st.sessions, st.users, token).Some? &&
              !(JoinedSession(st.sessions, st.users, token).value.0.expiresAt < req.now))
    ensures r.Ok? && r.value.0.Some? ==>
              var u := JoinedSession(st.sessions, st.users, token).value.1;
              && r.value.0.value == SessionUser(u.id, u.email, u.firstName, u.lastName, u.profileImage, u.isActive)
              && r.value.1.(sessions := st.sessions) == st
              && |r.value.1.sessions| == |st.sessions|
              && forall i :: 0 <= i < |st.sessions| ==>
                   r.value.1.sessions[i] == st.sessions[i].(lastActiveAt := r.value.1.sessions[i].lastActiveAt)
    ensures r.Ok? && r.value.0.Some? ==>
              forall i :: 0 <= i < |st.sessions| ==>
                r.value.1.sessions[i].lastActiveAt ==
                  (if st.sessions[i].id == r.value.0.value.id then req.now else st.sessions[i].lastActiveAt)
  {
    if SessionsTable in req.down then Err(StoreUnavailable)
    else
      match JoinedSession(st.sessions, st.users, token)
      case None => Ok((None, st))
      case Some((s, u)) =>
        if s.expiresAt < req.now then Ok((None, st))
        else
          var joinedId := u.id;
          Ok((Some(SessionUser(joinedId, u.email, u.firstName, u.lastName, u.profileImage, u.isActive)),
              st.(sessions := Touch(st.sessions, joinedId, req.now))))
  }

  /** The sessions whose token differs from `token`, in order. */
  function WithoutToken(sessions: seq<Session>, token: string): (r: seq<Session>)
    ensures forall s :: s in r <==> s in sessions && s.token != token
    ensures |r| <= |sessions|
  {
    if |sessions| == 0 then []
    else if sessions[0].token == token then WithoutToken(sessions[1..], token)
    else [sessions[0]] + WithoutToken(sessions[1..], token)
  }

  lemma {:induction false} WithoutTokenIdempotent(sessions: seq<Session>, token: string)
    ensures WithoutToken(WithoutToken(sessions, token), token) == WithoutToken(sessions, token)
  {
    if |sessions| > 0 {
      WithoutTokenIdempotent(sessions[1..], token);
      if sessions[0].token != token {
        var rest := WithoutToken(sessions[1..], token);
        assert ([sessions[0]] + rest)[1..] == rest;
      }
    }
  }

  lemma {:induction false} WithoutTokenAbsent(sessions: seq<Session>, token: string)
    requires forall s :: s in sessions ==> s.token != token
    ensures WithoutToken(sessions, token) == sessions
  {
    if |sessions| > 0 {
      assert forall s :: s in sessions[1..] ==> s in sessions;
      WithoutTokenAbsent(sessions[1..], token);
      assert [sessions[0]] + sessions[1..] == sessions;
    }
  }

  /**
   * deleteSession: removes every session with exactly this token; reports
   * `true` even when none matched and `false` only when the table fails.
   */
  function DeleteSession(st: Store, req: Request, token: string): (r: (bool, Store))
    ensures r.0 <==> SessionsTable !in req.down
    ensures !r.0 ==> r.1 == st
    ensures r.0 ==> r.1.(sessions := st.sessions) == st &&
                    forall s :: s in r.1.sessions <==> s in st.sessions && s.token != token
  {
    if SessionsTable in req.down then (false, st)
    else (true, st.(sessions := WithoutToken(st.sessions, token)))
  }

  /** Deleting a token twice leaves the store deleting it once does. */
  lemma DeleteSessionIdempotent(st: Store, req: Request, token: string)
    ensures DeleteSession(DeleteSession(st, req, token).1, req, token) == DeleteSession(st, req, token)
  {
    if SessionsTable !in req.down {
      WithoutTokenIdempotent(st.sessions, token);
    }
  }

  /** Deleting a token no session carries still reports success and changes nothing. */
  lemma DeleteUnknownToken(st: Store, req: Request, token: string)
    requires SessionsTable !in req.down
    requires forall s :: s in st.sessions ==> s.token != token
    ensures DeleteSession(st, req, token) == (true, st)
  {
    WithoutTokenAbsent(st.sessions, token);
  }

  /** A fresh session validates, for its own user, until the instant it expires. */
  lemma CreateThenValidate(st: Store, req: Request, userId: Id, req': Request)
    requires SessionsTable !in req.down && SessionsTable !in req'.down
    requires FindUserById(st.users, userId).Some?
    requires forall s :: s in st.sessions ==> s.token != GenerateAccessToken(req.cfg, userId, req.now)
    requires req'.now <= req.now + SessionLifetime
    ensures var (token, st') := CreateSession(st, req, userId).value;
            var r := ValidateSession(st', req', token);
            r.Ok? && r.value.0.Some? && r.value.0.value.id == userId
  {
    var (token, st') := CreateSession(st, req, userId).value;
    JoinedSessionAppend(st.sessions, st.users, token, st'.sessions[|st.sessions|]);
    assert st'.sessions == st.sessions + [st'.sessions[|st.sessions|]];
  }

  lemma {:induction false} JoinedSessionAppend(sessions: seq<Session>, users: seq<User>, token: string, row: Session)
    requires forall s :: s in sessions ==> s.token != token
    requires row.token == token && FindUserById(users, row.userId).Some?
    ensures JoinedSession(sessions + [row], users, token) == Some((row, FindUserById(users, row.userId).value))
  {
    if |sessions| > 0 {
      assert (sessions + [row])[1..] == sessions[1..] + [row];
      assert forall s :: s in sessions[1..] ==> s in sessions;
      JoinedSessionAppend(sessions[1..], users, token, row);
    } else {
      assert (sessions + [row]) == [row];
    }
  }

  /** After the token is deleted, validating it yields no user. */
  lemma DeleteThenValidate(st: Store, req: Request, token: string)
    requires SessionsTable !in req.down
    ensures ValidateSession(DeleteSession(st, req, token).1, req, token) == Ok((None, DeleteSession(st, req, token).1))
  {
  }

  /**
   * The touch after a validation targets the joined row's `id`, which is the
   * user's: when no session shares its id with a user, validation leaves
   * every `last_active_at` as it was.
   */
  lemma ValidateTouchesNoSession(st: Store, req: Request, token: string)
    requires forall s, u :: s in st.sessions && u in st.users ==> s.id != u.id
    ensures ValidateSession(st, req, token).Ok? ==> ValidateSession(st, req, token).value.1 == st
  {
    var j := JoinedSession(st.sessions, st.users, token);
    if SessionsTable !in req.down && j.Some? && !(j.value.0.expiresAt < req.now) {
      var touched := Touch(st.sessions, j.value.1.id, req.now);
      assert j.value.1 in st.users;
      assert forall i :: 0 <= i < |st.sessions| ==> touched[i] == st.sessions[i] by {
        forall i | 0 <= i < |st.sessions| ensures touched[i] == st.sessions[i] {
          assert st.sessions[i] in st.sessions;
        }
      }
      assert touched == st.sessions;
    }
  }

  /** Occurrence of `pat` in `s` starting at index `i`. */
  predicate OccursAt(s: string, pat: string, i: int) {
    0 <= i && i + |pat| <= |s| && s[i..i + |pat|] == pat
  }

  /** `s.replace(pat, '')`: only the first occurrence of `pat` is removed. */
  function RemoveFirst(s: string, pat: string): string
    requires |pat| > 0
    decreases |s|
  {
    if |s| < |pat| then s
    else if s[..|pat|] == pat then s[|pat|..]
    else [s[0]] + RemoveFirst(s[1..], pat)
  }

  lemma OccursShift(s: string, pat: string, i: int)
    requires 1 <= i <= |s|
    ensures OccursAt(s, pat, i) <==> OccursAt(s[1..], pat, i - 1)
  {
    if i + |pat| <= |s| {
      var a, b := s[i..i + |pat|], s[1..][i - 1..i - 1 + |pat|];
      assert forall k :: 0 <= k < |a| ==> a[k] == s[i + k] == b[k];
      assert a == b;
    }
  }

  /** Without an occurrence of the pattern the text comes back unchanged. */
  lemma {:induction false} RemoveFirstAbsent(s: string, pat: string)
    requires |pat| > 0
    requires forall i :: 0 <= i <= |s| ==> !OccursAt(s, pat, i)
    ensures RemoveFirst(s, pat) == s
    decreases |s|
  {
    if |s| >= |pat| {
      assert !OccursAt(s, pat, 0);
      forall i | 0 <= i <= |s[1..]|
        ensures !OccursAt(s[1..], pat, i)
      {
        OccursShift(s, pat, i + 1);
      }
      RemoveFirstAbsent(s[1..], pat);
      assert [s[0]] + s[1..] == s;
    }
  }

  /** With a first occurrence at `i`, exactly that occurrence is cut out. */
  lemma {:induction false} RemoveFirstCuts(s: string, pat: string, i: int)
    requires |pat| > 0
    requires OccursAt(s, pat, i)
    requires forall j :: 0 <= j < i ==> !OccursAt(s, pat, j)
    ensures RemoveFirst(s, pat) == s[..i] + s[i + |pat|..]
    decreases |s|
  {
    if i == 0 {
      assert s[..|pat|] == pat;
    } else {
      assert !OccursAt(s, pat, 0);
      OccursShift(s, pat, i);
      forall j | 0 <= j < i - 1
        ensures !OccursAt(s[1..], pat, j)
      {
        OccursShift(s, pat, j + 1);
      }
      RemoveFirstCuts(s[1..], pat, i - 1);
      assert [s[0]] + s[1..][..i - 1] == s[..i];
      assert s[1..][i - 1 + |pat|..] == s[i + |pat|..];
    }
  }

  const MappedPrefix: string := "::ffff:"

  /** `ipAddress?.replace('::ffff:', '') || null`. */
  function NormalizeIp(ip: Option<string>): (r: Option<string>)
    ensures ip.None? ==> r.None?
    ensures r.Some? ==> r.value != [] && ip.Some? && r.value == RemoveFirst(ip.value, MappedPrefix)
    ensures ip.Some? && RemoveFirst(ip.value, MappedPrefix) != [] ==> r.Some?
  {
    match ip
    case None => None
    case Some(a) =>
      var cleaned := RemoveFirst(a, MappedPrefix);
      if cleaned == "" then None else Some(cleaned)
  }

  /** An IPv4-mapped address loses its `::ffff:` prefix, and only that one. */
  lemma NormalizeMapped(a: string)
    ensures NormalizeIp(Some(MappedPrefix + a)) == (if a == "" then None else Some(a))
  {
    var s := MappedPrefix + a;
    assert OccursAt(s, MappedPrefix, 0);
    RemoveFirstCuts(s, MappedPrefix, 0);
    assert s[|MappedPrefix|..] == a;
  }

  /** An address that never contains `::ffff:` is kept as it is, unless empty. */
  lemma NormalizeUnmapped(a: string)
    requires forall i :: 0 <= i <= |a| ==> !OccursAt(a, MappedPrefix, i)
    ensures NormalizeIp(Some(a)) == (if a == "" then None else Some(a))
  {
    RemoveFirstAbsent(a, MappedPrefix);
  }

  /** The details column: the caller's object when it has keys, else a default. */
  function StoredDetails(details: Option<map<string, Value>>, action: string, now: nat): (d: Details)
    ensures d.Recorded? <==> details.Some? && |details.value| > 0
    ensures d.Recorded? ==> d.fields == details.value
    ensures d.Defaulted? ==> d == Defaulted(now, "API", action)
  {
    if details.Some? && |details.value| > 0 then Recorded(details.value)
    else Defaulted(now, "API", action)
  }

  /**
   * createAuditLog: appends one row, or nothing when the table fails; never
   * fails itself and touches no other table.
   */
  function CreateAuditLog(st: Store, req: Request, action: string, userId: Option<Id>,
                          details: Option<map<string, Value>>): (st': Store)
    ensures st'.(auditLogs := st.auditLogs) == st
    ensures AuditTable in req.down ==> st' == st
    ensures AuditTable !in req.down ==>
      && |st'.auditLogs| == |st.auditLogs| + 1
      && st'.auditLogs[..|st.auditLogs|] == st.auditLogs
      && var row := st'.auditLogs[|st.auditLogs|];
         row.action == action && row.userId == userId && row.timestamp == req.now &&
         row.ipAddress == NormalizeIp(req.ip) && row.details == StoredDetails(details, action, req.now)
  {
    if AuditTable in req.down then st
    else
      var row := AuditLog(userId, action, req.now, NormalizeIp(req.ip), StoredDetails(details, action, req.now));
      st.(auditLogs := st.auditLogs + [row])
  }
}
