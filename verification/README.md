# jnj-auth core in Dafny

This project models the decision logic of jnj-auth, an authentication and
role-based access-control GraphQL API built on Prisma, and proves properties
of that model.

The database is an immutable `Store`: a record of sequences with one sequence
per table. It holds users, sessions, sites, pages, roles, role assignments,
permissions, grants, social providers, social connections and audit logs.
Each resolver is a pure function that takes the store and the request and
returns a result or an error, together with the next store.

The request is a `Request` value. It holds:

- the configuration (JWT secrets and lifetimes);
- the clock, in seconds;
- the client address and user agent;
- the bcrypt salt;
- the set of tables whose statements fail.

The modules follow the source layout:

| module | file | models |
|---|---|---|
| `Rows` | rows.dfy | the rows, the store, id allocation, the shared lookups |
| `Jwt` | jwt.dfy | a token text format with round-trip decoding, standing in for jsonwebtoken |
| `Permissions` | permissions.dfy | `hasPermissionForSite`, `hasPermissionForPage`, `isAdmin`, `isSiteAdmin` |
| `PermissionLaws` | permission_laws.dfy | properties of those four checks |
| `AuthUtils` | auth_utils.dfy | passwords, both token classes, sessions, the audit-log writer |
| `Middleware` | middleware.dfy | the `Authorization` header middleware |
| `AuthResolvers` | auth_resolvers.dfy | `login`, `register`, `socialAuth`, `refreshToken`, `logout`, `me` |
| `UserResolvers` | user_resolvers.dfy | the user queries and mutations |
| `RoleResolvers` | role_resolvers.dfy | the role queries and mutations |

Crypto is uninterpreted. Its consequences are kept, with one exception noted
below:

- A bcrypt hash is the constructor `Bcrypt(salt, secret)`. In the model a hash accepts exactly the password it was made from. bcryptjs itself compares only the first 72 bytes of a password, which the model does not reproduce (see "Left out").
- A token is a letters-only text that encodes its claims, issue time, expiry and signing key. Decoding inverts signing, so verification succeeds exactly under the signing key and before expiry.
- A token never contains a space. Because of this, `Bearer <token>` survives the middleware's `split(' ')`.

Where the code and its design disagree, the model follows the code:

- The site check accepts a grant scoped to a single page. It never looks at `page_id` (app/utils/permissions.ts:43-52).
- `isAdmin` ignores the site scope of the user's assignment.
- `refreshToken` reads `user_id` from the token payload, but tokens are signed with `userId`.
- `logout` returns true on every path that can be reached.
- In validateSession, the joined `SELECT s.*, u.*` row has two `id` columns, and its `id` is read as the user's id. That id is what the middleware needs. The `last_active_at` update also uses it, and so targets a session whose id equals the user's id. `AuthUtils.ValidateTouchesNoSession` shows the consequence: when session and user ids are distinct, validation refreshes no session.
- The GraphQL schema declares `RoleInput` without `permissionIds` (app/graphql/typeDefs.ts:160-164). The resolvers read that field, and the model follows the resolvers.

## Model

| member | source | states |
|---|---|---|
| Jwt.DecodeSign | app/utils/auth.ts:23-27 | a signed token decodes to exactly the claims, issue time, expiry and key it was signed with |
| Jwt.VerifySign | app/utils/auth.ts:50 | verifying a signed token yields its payload exactly under the signing key and strictly before expiry, and fails otherwise |
| AuthUtils.OrDefault | app/utils/auth.ts:19 | `process.env.X \|\| fallback`: an unset or empty variable yields the fallback, any other value is used as is |
| AuthUtils.CompareHashed | app/utils/auth.ts:7-15 | a hash made from a password accepts a candidate iff the candidate is that password, whatever the salt |
| AuthUtils.GenerateAccessToken | app/utils/auth.ts:18-28 | the token is non-empty and space-free, carries only the `userId` claim, is signed with the access secret (default `default-jwt-secret`) and expires one access lifetime after issue |
| AuthUtils.GenerateRefreshToken | app/utils/auth.ts:31-41 | the same for the refresh secret (default `default-jwt-refresh-secret`) and the refresh lifetime |
| AuthUtils.VerifyToken | app/utils/auth.ts:44-54 | a payload is returned iff the token decodes, was signed with the secret of the requested class and has not expired, and it is then the token's own payload; anything else gives `None` |
| AuthUtils.TokenClassesSeparate | app/utils/auth.ts:44-54 | an issued token verifies as its own class until expiry, and as the other class iff the two secrets coincide |
| AuthUtils.DefaultSecretsSeparate | app/utils/auth.ts:46-48 | with neither secret configured, no access token verifies as a refresh token and vice versa |
| AuthUtils.DefaultLifetimes | app/utils/auth.ts:18-41 | unconfigured, access tokens expire after 604800 s (7 days) and refresh tokens after 2592000 s (30 days) |
| AuthUtils.CreateSession | app/utils/auth.ts:57-72 | it fails iff the sessions table fails; otherwise it appends one row with a fresh id for the user, with the returned access token, an expiry seven days ahead, the raw address and agent, and created and last-active set to now; no other table changes |
| AuthUtils.ValidateSession | app/utils/auth.ts:75-106 | it errors iff the sessions table fails; it yields a user iff the first session with the token that joins a user has not expired, and then returns that user's fields; on success exactly the sessions whose id equals the returned user id get `last_active_at` set to now and nothing else changes; otherwise the store is unchanged |
| AuthUtils.ValidateTouchesNoSession | app/utils/auth.ts:91-99 | when no session id equals a user id, validation changes no session |
| AuthUtils.CreateThenValidate | app/utils/auth.ts:57-106 | a newly created session validates for its own user until its seven days are up |
| AuthUtils.DeleteSession | app/utils/auth.ts:109-120 | it reports true iff the table works, and then removes exactly the sessions carrying the token; on failure nothing changes |
| AuthUtils.DeleteSessionIdempotent | app/utils/auth.ts:112-116 | deleting a token twice gives the same result as deleting it once |
| AuthUtils.DeleteUnknownToken | app/utils/auth.ts:109-120 | deleting a token that no session carries reports true and changes nothing |
| AuthUtils.DeleteThenValidate | app/utils/auth.ts:75-120 | once a token is deleted, validating it yields no user and changes nothing |
| AuthUtils.RemoveFirstCuts | app/utils/auth.ts:131 | `replace` with a string pattern cuts out exactly the first occurrence |
| AuthUtils.NormalizeIp | app/utils/auth.ts:131 | a missing address stays missing; the stored address is the input with its first `::ffff:` removed, or null when that is empty |
| AuthUtils.NormalizeMapped | app/utils/auth.ts:130-131 | `::ffff:a` is stored as `a`, or null for empty `a` |
| AuthUtils.NormalizeUnmapped | app/utils/auth.ts:131 | an address without `::ffff:` is stored unchanged, or null when empty |
| AuthUtils.StoredDetails | app/utils/auth.ts:134-140 | caller details are stored iff given with at least one key; otherwise the default `{timestamp, source: 'API', type: action}` is stored |
| AuthUtils.CreateAuditLog | app/utils/auth.ts:123-163 | it appends exactly one row with the action, user, time, cleaned address and details, or nothing when the audit table fails; it never fails and touches no other table |
| Middleware.Split | app/middleware/auth.ts:11 | `split(' ')` yields at least one piece and no piece contains a space; joining the pieces with single spaces gives back the header |
| Middleware.ParseBearerExactly | app/middleware/auth.ts:11-13 | the header yields token `t` iff it is `Bearer`, one space and a non-empty space-free `t`, optionally followed by a space and anything |
| Middleware.ParseBearerRejects | app/middleware/auth.ts:11-13 | a lower-case scheme, a double space or a bare `Bearer` yields no token |
| Middleware.AuthMiddleware | app/middleware/auth.ts:5-32 | with no header, an empty header or a non-Bearer header, the request continues anonymous and unchanged; it passes the store error on, with the store unchanged, iff a bearer token was present and the sessions table fails; a caller is attached iff validation returned a user, and then with that user's id and email and the token, and the store is the one validation left; continuing without a caller leaves the store unchanged |
| Middleware.LoginThenBearer | app/middleware/auth.ts:5-32 | presenting a newly created session's token as `Bearer <token>` attaches that session's user and token |
| Permissions.HasPermissionForSite | app/utils/permissions.ts:4-55 | false for an unknown site, an unknown permission or a user with no assignments; otherwise true iff an assignment scoped to the site or unscoped names a role with a grant for the permission at that site or no site, whatever its page |
| Permissions.HasPermissionForPage | app/utils/permissions.ts:58-140 | false for an unknown site, page or permission, or a user with no assignments; otherwise true iff an applicable assignment names a role granted the permission on the page, or on the site with no page, or with neither site nor page |
| Permissions.FindSiteAdminRole | app/utils/permissions.ts:175-183 | a role named `admin` that is scoped to the site or system-wide; none iff no such role exists |
| Permissions.FindSiteAdminRoleFirst | app/utils/permissions.ts:175-183 | the chosen role is the first in table order that is named `admin` and is scoped to the site or system-wide |
| Rows.FindSystemRoleFirst | app/utils/permissions.ts:145-150 | the role lookup by name picks the first system-wide role with that name in table order |
| Permissions.IsAdmin | app/utils/permissions.ts:143-163 | false when there is no system-wide `admin` role; otherwise true iff the user has any assignment to the first such role, whatever its scope |
| Permissions.IsSiteAdmin | app/utils/permissions.ts:166-200 | false for an unknown domain or no candidate `admin` role; otherwise true iff the user has an assignment to the chosen role that is scoped to the site or unscoped |
| PermissionLaws.GrantsMonotone | app/utils/permissions.ts:107-139 | adding grant rows never turns a granted site or page check into a denial |
| PermissionLaws.ForeignAssignmentIgnored | app/utils/permissions.ts:17-24 | an assignment scoped to another site changes neither check |
| PermissionLaws.PageScopedGrantPassesSiteCheck | app/utils/permissions.ts:43-52 | a grant scoped to a page, with the site's id or no site, satisfies the site check |
| PermissionLaws.PageCheckImpliesSiteCheck | app/utils/permissions.ts:58-140 | a granted page check implies the site check, provided every grant naming that page carries the page's site or no site |
| PermissionLaws.IsAdminIgnoresScopeAndGrants | app/utils/permissions.ts:143-163 | changing an assignment's site scope, or replacing every permission and grant, leaves `isAdmin` unchanged |
| PermissionLaws.SiteAdminRoleIsSystemAdmin | app/utils/permissions.ts:175-183 | when every `admin` role is system-wide, the site lookup picks the role `isAdmin` picks |
| PermissionLaws.SystemAdminIsSiteAdminEverywhere | app/utils/permissions.ts:166-200 | a holder of the only, system-wide admin role, assigned without scope, is admin and site admin of every known domain |
| PermissionLaws.ScopedAdminAssignment | app/utils/permissions.ts:143-200 | with the system admin role held only through an assignment scoped to site one, the user is admin and site admin of site one but not of site two |
| PermissionLaws.PageGrantPrecedence | app/utils/permissions.ts:107-139 | a page-scoped grant opens its page and not a sibling page, yet passes the site check |
| AuthResolvers.FindActiveProvider | app/graphql/resolvers/auth.ts:164-166 | an active provider with exactly that name; none iff no provider is both |
| AuthResolvers.AssignDefaultRole | app/graphql/resolvers/auth.ts:116-128 | one unscoped assignment to the first system-wide `user` role if it exists; otherwise nothing; no other table changes |
| AuthResolvers.Login | app/graphql/resolvers/auth.ts:21-88 | bad credentials iff the email is unknown, the user has no password or the password fails; disabled iff the credentials match an inactive user; a store error iff they match an active user and sessions fail; errors change nothing; it succeeds in every other case, returning the user's public fields with `is_active`, a fresh session's access token and a refresh token, and writes one session and a `LOGIN` audit row |
| AuthResolvers.LoginIgnoresSiteAndPage | app/graphql/resolvers/auth.ts:22-70 | the site domain and page path of a login change neither its outcome nor any table except the audit details |
| AuthResolvers.Register | app/graphql/resolvers/auth.ts:91-157 | an existing email is rejected with nothing changed; otherwise a user with a fresh id, the given email and names, the salted hash of the password, no profile image, no metadata and `is_active` true is appended, and gets exactly the assignment the default-role rule gives; the only later error is a failing sessions table, which keeps the user but writes no session or audit row; success returns that user's public fields, a fresh session's access token and a refresh token for the user, and writes one session and a `REGISTER` audit row; no other table changes |
| AuthResolvers.RegisterKeepsEmailsUnique | app/graphql/resolvers/auth.ts:94-114 | when no two accounts share an email before registration, none do after it |
| AuthResolvers.UpsertConnection | app/graphql/resolvers/auth.ts:215-232 | an existing (provider, code) connection only has `last_used_at` refreshed; otherwise one connection is appended |
| AuthResolvers.SocialUser | app/graphql/resolvers/auth.ts:174-204 | the user with the synthetic email is reused as is; otherwise an active, password-less user named `<provider>User` is created with the default role |
| AuthResolvers.SocialAuth | app/graphql/resolvers/auth.ts:160-253 | it errors naming the provider iff no active provider matches the lower-cased name, with nothing changed; otherwise it errors iff the sessions table fails, keeping only the user and assignment already made; it succeeds in every other case, returning the public fields of the user with email `<lower provider>_<code>@example.com`, a fresh session's access token and a refresh token, appends one session, upserts the (provider, code) connection with `last_used_at` now, writes a `SOCIAL_LOGIN` audit row, and changes no other table |
| AuthResolvers.SocialAuthFirstLogin | app/graphql/resolvers/auth.ts:174-236 | a first social login with a new code creates one active, password-less user with the synthetic email and a fresh id, gives it the default-role assignment, appends a session for it, and appends one connection from the provider and code to it, used now |
| AuthResolvers.SocialAuthExistingUser | app/graphql/resolvers/auth.ts:176-232 | a repeat social login creates no user or assignment, and succeeds even for an inactive account; existing connections keep every field except `last_used_at` |
| AuthResolvers.RefreshWith | app/graphql/resolvers/auth.ts:256-298 | invalid token iff verification fails or the payload lacks the claim; invalid user iff the claimed user is missing or inactive; a store error iff the token and user pass and the sessions table fails; errors change nothing; it succeeds in every other case, returning that user's public fields, mints a session and a refresh token for them, audits `TOKEN_REFRESH`, and changes only the sessions and audit tables |
| AuthResolvers.IssuedRefreshTokensRejected | app/graphql/resolvers/auth.ts:258-261 | as written, every refresh token the service issues is rejected as invalid, at any time and in any store |
| AuthResolvers.IssuedRefreshTokensAccepted | app/graphql/resolvers/auth.ts:256-298 | reading `userId`, an unexpired issued refresh token for an active user succeeds and appends a session for that user |
| AuthResolvers.AccessTokenRefusedForRefresh | app/graphql/resolvers/auth.ts:258-261 | with default secrets, an access token is refused as a refresh token |
| AuthResolvers.RefreshWithUserIdClaim | app/graphql/resolvers/auth.ts:256-298 | a token signed with the refresh secret that carries `user_id` for an active user succeeds |
| AuthResolvers.Logout | app/graphql/resolvers/auth.ts:301-322 | always true; without a caller or a non-empty token nothing changes; otherwise the token's sessions are removed, unless the table fails, and `LOGOUT` is audited |
| AuthResolvers.LogoutEndsSession | app/graphql/resolvers/auth.ts:306-310 | after logout the same token no longer validates |
| AuthResolvers.Me | app/graphql/resolvers/auth.ts:325-333 | null without a caller; otherwise the caller's own row, present iff it exists |
| UserResolvers.AdminGate | app/graphql/resolvers/user.ts:9-16 | not authenticated iff there is no caller; access denied iff the caller is not admin; passes otherwise |
| UserResolvers.SelfOrAdminGate | app/graphql/resolvers/user.ts:46-52 | not authenticated iff there is no caller; passes iff the target is the caller or the caller is admin |
| UserResolvers.SelfOrAdminGateSound | app/graphql/resolvers/user.ts:46-52 | acting on oneself passes whatever the roles and assignments; an admin passes for every target |
| UserResolvers.Users | app/graphql/resolvers/user.ts:7-23 | admin only; a negative `skip` is an invalid argument, and every other admin request succeeds; a non-negative `take` gives min(take, rows after skip) users from `skip` on; a negative `take` gives the last min(-take, rows left) users that end `skip` rows before the end; defaults are 0 and 50 |
| UserResolvers.UsersBackwardIsWindow | app/graphql/resolvers/user.ts:18-22 | taking `k` rows backwards with a skip is the same page as taking `k` rows forwards from the matching offset |
| UserResolvers.UsersPagesConcatenate | app/graphql/resolvers/user.ts:18-22 | two consecutive pages concatenate to the page spanning both |
| UserResolvers.UserCount | app/graphql/resolvers/user.ts:26-38 | admin only; the number of users |
| UserResolvers.UserById | app/graphql/resolvers/user.ts:41-57 | self or admin; a row with the id iff one exists |
| UserResolvers.Patch | app/graphql/resolvers/user.ts:79-84 | only first name, last name, profile image and metadata change, each only when supplied |
| UserResolvers.UpdateUser | app/graphql/resolvers/user.ts:60-95 | self or admin; a missing user is not found with nothing changed; otherwise only that user's row is patched and `USER_UPDATE` is audited by the caller |
| UserResolvers.UpdateUserKeepsCredentials | app/graphql/resolvers/user.ts:77-85 | with unique ids, a profile update never changes whether an email and password pass login's credential check, nor the account's active flag |
| UserResolvers.UpdatePassword | app/graphql/resolvers/user.ts:98-137 | the errors come in order: not authenticated, then missing or social user, then wrong current password; each changes nothing; every other call succeeds, replacing only the caller's password hash and audits `PASSWORD_UPDATE` |
| UserResolvers.PasswordChangeTakesEffect | app/graphql/resolvers/user.ts:107-128 | with unique ids and emails, the new password then passes the credential check and a different old one fails it |
| UserResolvers.DeleteUser | app/graphql/resolvers/user.ts:140-166 | self or admin; a missing user is not found; otherwise the user, their sessions, assignments and connections go, and `USER_DELETE` is audited |
| UserResolvers.DeletedUserHoldsNothing | app/graphql/resolvers/user.ts:153-156 | after deletion the user has no site or page permission, is not admin, and no token validates to them |
| UserResolvers.ConnectSocialAccount | app/graphql/resolvers/user.ts:169-221 | errors come in order: not authenticated, then unsupported provider (lower-cased match), then a connection under `mock_<provider>_<code>` for any owner already exists; every other call succeeds, appending one connection owned by the caller and audits it |
| UserResolvers.ConnectTwiceRejected | app/graphql/resolvers/user.ts:187-197 | after a connect, connecting the same account again is rejected for every caller |
| UserResolvers.DisconnectSocialAccount | app/graphql/resolvers/user.ts:224-252 | not authenticated iff there is no caller; access denied iff the connection is missing or not the caller's; a caller's own connection is always disconnected: success removes exactly that connection and audits `SOCIAL_DISCONNECT` |
| UserResolvers.ConnectThenDisconnect | app/graphql/resolvers/user.ts:169-252 | disconnecting the connection just made restores the connection table exactly |
| UserResolvers.CreateUser | app/graphql/resolvers/user.ts:255-321 | admin only; a duplicate email is rejected with nothing changed; otherwise one user is appended; it is active unless the input says otherwise, and has a hash iff a non-empty password was given; it gets the default role if that role exists, and `USER_CREATE` is audited |
| UserResolvers.CreatedUserLogin | app/graphql/resolvers/user.ts:280-296 | a created user logs in with their non-empty password unless deactivated, and without a password can never log in |
| RoleResolvers.GrantedPermissions | app/graphql/resolvers/role.ts:31-36 | every listed permission comes from a grant of the role, and every grant of the role whose permission exists is listed |
| RoleResolvers.View | app/graphql/resolvers/role.ts:26-37 | id, name and description are the role's; the site is present only for a site-scoped role and is that site |
| RoleResolvers.RoleById | app/graphql/resolvers/role.ts:5-38 | not authenticated iff there is no caller; not found iff no role has the id; it succeeds iff the caller is present and some role has the id, with the view of a role with that id |
| RoleResolvers.MatchingRoles | app/graphql/resolvers/role.ts:50-58 | exactly the rows with the given site and, for a non-empty search, containing it in the name or description |
| RoleResolvers.SortByIdDesc | app/graphql/resolvers/role.ts:65 | a permutation of its input, ordered by id descending |
| RoleResolvers.ViewsOfPermutation | app/graphql/resolvers/role.ts:63-96 | the views of a sorted permutation have the same count, the same order and the same members as the rows |
| RoleResolvers.Roles | app/graphql/resolvers/role.ts:41-106 | empty without a caller or when the query fails; otherwise every matching role once per row, and nothing else, by id descending |
| RoleResolvers.SearchNarrows | app/graphql/resolvers/role.ts:52-57 | adding a search never adds a role to the list |
| RoleResolvers.Grants | app/graphql/resolvers/role.ts:119-124 | one grant per listed permission id, in order, at the input's site and on no page; none without a list |
| RoleResolvers.CreateRole | app/graphql/resolvers/role.ts:109-148 | not authenticated iff there is no caller; a missing site or permission fails with nothing changed; it succeeds iff there is a caller and every reference exists, and then one role with a fresh id, the given name, and a description and site that are absent when omitted or null, is appended with its grants, and only those tables change |
| RoleResolvers.CreateThenRoleById | app/graphql/resolvers/role.ts:5-148 | a created role is then found by its id by any caller, with every listed permission among its permissions |
| RoleResolvers.UpdateRole | app/graphql/resolvers/role.ts:151-197 | not authenticated changes nothing; otherwise the role's grants are deleted first, so an update that then fails (missing role or reference) leaves the role with no grants; it succeeds iff there is a caller, the role exists and every reference exists, and then sets the name, keeps an omitted description or site, clears one given as null, sets one given a value, leaves the role's grants exactly the listed ids at the input's site, keeps every other role's grants, and rewrites only that role |
| RoleResolvers.DeleteRole | app/graphql/resolvers/role.ts:200-221 | for an authenticated caller, the role's assignments and grants are removed whether or not the role exists, and the call succeeds iff the role exists, removing the role itself; other rows are untouched |
| RoleResolvers.FewerRowsNeverGrant | app/utils/permissions.ts:4-140 | removing assignment or grant rows never turns a denied check into a granted one |
| RoleResolvers.DeleteRoleNeverGrants | app/graphql/resolvers/role.ts:200-221 | deleting a role never grants a permission that was not already held |
| RoleResolvers.SiteCheckThroughOneRole | app/utils/permissions.ts:17-54 | when a user's only applicable role is R, the site check is decided by R's grants alone |
| RoleResolvers.ListedGrantsDecideSiteCheck | app/graphql/resolvers/role.ts:168-173 | with R's grants built from a list, the site check passes iff the permission is listed and the grants' site is the site or none |
| RoleResolvers.UpdateRoleDecidesSiteCheck | app/graphql/resolvers/role.ts:151-197 | after an update, a user holding only that role passes the site check exactly for the listed permissions at the input's site; with no site given, on every site |

## Left out

- bcrypt and jsonwebtoken internals. The salt is a request parameter and a hash is an injective constructor. Tokens are a decodable text whose signature is modelled by embedding the key, so a token verifies only under the key that signed it. Lifetimes are whole seconds; duration strings such as `'7d'` are not parsed.
- `Date` arithmetic, time zones and daylight saving. Time is one integer clock, and the session's "seven days later" is a fixed 604800 seconds.
- Async concurrency. Each resolver is one sequential store transition, and a failing statement is modelled only where the source tells failures apart: createSession, validateSession, deleteSession, createAuditLog and the roles query. Any other Prisma failure is not modelled, except for the unknown-record and missing-reference errors listed in the operations.
- JSON serialisation of audit details and the `auth_data` column. Details are a map of text, number or undefined values. `auth_data` (always `{}`) is not stored.
- UserResolvers.Users: the `created_at` descending order is not modelled, because rows carry no creation time. The page is a window over store order. An explicit `null` for `skip` or `take` is not modelled; an omitted one takes its default.
- AuthUtils.CompareHashed: bcryptjs compares only the first 72 UTF-8 bytes of a password, while the model's hash is injective, so two passwords that agree on those bytes are told apart in the model. This also bounds UserResolvers.PasswordChangeTakesEffect and AuthResolvers.Login: a different old password that shares the first 72 bytes would still pass.
- AuthResolvers.Register: the created user's `is_active` true comes from the column default, because app/graphql/resolvers/auth.ts:107-114 does not set it. The Prisma schema is not part of this model, so the default is taken to be true, as in social sign-up and createUser.
- AuthResolvers.Lower: lower-cases ASCII letters only; `toLowerCase` also maps other scripts.
- AuthResolvers.RefreshWith: the schema declares `refreshToken(refreshToken: String!)` (app/graphql/typeDefs.ts:242) while the resolver destructures `refresh_token` (app/graphql/resolvers/auth.ts:256), so through GraphQL the token is always undefined, verification fails and every refresh is rejected, whichever claim key is read. The model takes the token the resolver would receive if the names matched, as they did in `_backups/v01`.
- AuthResolvers.RefreshWith: a claim value of 0 counts as present. In JavaScript a numeric 0 is falsy, but the source's ids are UUID strings, which are always truthy.
- UserResolvers.UpdateUser: an explicit `null` for a profile field is not distinguished from an absent field, and both leave the field unchanged.
- UserResolvers.CreateUser: `CreateUserInput` declares `first_name`, `last_name` and `is_active` (app/graphql/typeDefs.ts:132-139) while the resolver reads `firstName`, `lastName` and `isActive` (app/graphql/resolvers/user.ts:282-284). Through GraphQL a created user therefore gets no names and is always active. The model follows the resolver's field names.
- UserResolvers.DeleteUser: the cascade to sessions, role assignments and social connections follows the source's comment, because the Prisma schema is not part of this model. Audit rows are kept.
- RoleResolvers.RoleById: ids arrive as GraphQL `ID` strings that the role resolvers read with `parseInt` (app/graphql/resolvers/role.ts:11, 121, 158, 163, 170, 207, 211, 215). The model takes ids as numbers, so neither the lenient parse (`"5abc"` reads as 5) nor a non-numeric id (NaN handed to Prisma) is modelled; this holds for CreateRole, UpdateRole and DeleteRole too.
- RoleResolvers.Roles: the schema declares `roles(site_id: ID)` without a `search` argument (app/graphql/typeDefs.ts:216), so a GraphQL client cannot pass one. The model follows the resolver (app/graphql/resolvers/role.ts:41-58), which reads `search`; MatchingRoles and SearchNarrows describe that resolver parameter, which through the schema is always absent. The resolver also hands its `site_id` string to Prisma without parsing it; the model compares it as a number.
- RoleResolvers.CreateRole: a duplicate permission id in the list is not treated as a key violation, because the schema's keys are not part of this model.
- The database's column names differ between snake_case and camelCase across resolvers, for example `socialConnection.userId` and `isActive` in createUser. The model uses one field per column and assumes each access reaches the column it names. The exception is the token payload key, whose mismatch is modelled.
- The GraphQL return types: deleteRole returns `{ id }` while the schema declares `Boolean!`. Only the resolver's own value is modelled.
- app/graphql/resolvers/site.ts, social-provider.ts and permission.ts. These are direct row CRUD and are not part of this model, nor are the schema text, types, wiring, server start-up, the superseded `_backups/v01` snapshot and the seed script.

## Findings

| source | as written | input that shows it | evidently intended | confidence | as-written member | corrected member |
|---|---|---|---|---|---|---|
| app/graphql/resolvers/auth.ts:258-259 | `refreshToken` reads `payload.user_id`, but both token generators sign `{ userId }` (app/utils/auth.ts:24, 37) | any refresh token from `generateRefreshToken(id)` for an active user, before expiry: it is rejected as invalid | read `payload.userId`, so that an issued refresh token yields a new session (the earlier version of the resolver did); through the GraphQL schema refresh also needs the argument name fixed, see "## Left out" | high, not executed | AuthResolvers.IssuedRefreshTokensRejected | AuthResolvers.IssuedRefreshTokensAccepted |
