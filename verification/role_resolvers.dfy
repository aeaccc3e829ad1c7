/**
 * The role resolvers of app/graphql/resolvers/role.ts: reading one role or a
 * filtered, ordered list, and the three transitions that rewrite the
 * `role_permissions` relation the permission checks read.
 */
module RoleResolvers {
  import opened Rows
  import opened AuthUtils
  import opened Permissions

  /** A role as the resolvers return it: its site and its granted permissions. */
  datatype RoleView = RoleView(
    id: Id,
    name: string,
    description: Option<string>,
    site: Option<Site>,
    permissions: seq<Permission>)

  function FindRole(roles: seq<Role>, id: Id): (r: Option<Role>)
    ensures r.Some? ==> r.value in roles && r.value.id == id
    ensures r.None? <==> forall x :: x in roles ==> x.id != id
  {
    if |roles| == 0 then None
    else if roles[0].id == id then Some(roles[0])
    else FindRole(roles[1..], id)
  }

  function FindSiteById(sites: seq<Site>, id: Id): (r: Option<Site>)
    ensures r.Some? ==> r.value in sites && r.value.id == id
    ensures r.None? <==> forall s :: s in sites ==> s.id != id
  {
    if |sites| == 0 then None
    else if sites[0].id == id then Some(sites[0])
    else FindSiteById(sites[1..], id)
  }

  function FindPermissionById(perms: seq<Permission>, id: Id): (r: Option<Permission>)
    ensures r.Some? ==> r.value in perms && r.value.id == id
    ensures r.None? <==> forall p :: p in perms ==> p.id != id
  {
    if |perms| == 0 then None
    else if perms[0].id == id then Some(perms[0])
    else FindPermissionById(perms[1..], id)
  }

  /** `role_permissions.map(rp => rp.permissions)` for one role, in grant order. */
  function GrantedPermissions(grants: seq<RolePermission>, perms: seq<Permission>, roleId: Id): (r: seq<Permission>)
    ensures forall p :: p in r ==> p in perms && exists rp :: rp in grants && rp.roleId == roleId && rp.permissionId == p.id
    ensures forall rp :: rp in grants && rp.roleId == roleId && FindPermissionById(perms, rp.permissionId).Some? ==>
              FindPermissionById(perms, rp.permissionId).value in r
  {
    if |grants| == 0 then []
    else
      var rest := GrantedPermissions(grants[1..], perms, roleId);
      assert forall rp :: rp in grants[1..] ==> rp in grants;
      if grants[0].roleId == roleId && FindPermissionById(perms, grants[0].permissionId).Some?
      then [FindPermissionById(perms, grants[0].permissionId).value] + rest
      else rest
  }

  /** The result mapping shared by every role resolver. */
  function View(st: Store, role: Role): (v: RoleView)
    ensures v.id == role.id && v.name == role.name && v.description == role.description
    ensures role.siteId.None? ==> v.site.None?
    ensures v.site.Some? ==> v.site.value in st.sites && Some(v.site.value.id) == role.siteId
  {
    RoleView(role.id, role.name, role.description,
             if role.siteId.Some? then FindSiteById(st.sites, role.siteId.value) else None,
             GrantedPermissions(st.rolePermissions, st.permissions, role.id))
  }

  /** role (app/graphql/resolvers/role.ts:5-38). */
  function RoleById(st: Store, ctx: Context, id: Id): (r: Result<RoleView>)
    ensures r.Ok? <==> ctx.user.Some? && exists x :: x in st.roles && x.id == id
    ensures r == Err(AuthenticationRequired) <==> ctx.user.None?
    ensures r == Err(RoleNotFound) <==> ctx.user.Some? && forall x :: x in st.roles ==> x.id != id
    ensures r.Ok? ==> r.value.id == id && exists x :: x in st.roles && x.id == id && r.value == View(st, x)
  {
    if ctx.user.None? then Err(AuthenticationRequired)
    else
      match FindRole(st.roles, id)
      case None => Err(RoleNotFound)
      case Some(x) => Ok(View(st, x))
  }

  /** `sub` occurs somewhere in `s` (the `contains` filter). */
  predicate Contains(s: string, sub: string) {
    exists i :: 0 <= i <= |s| && OccursAt(s, sub, i)
  }

  /** The `where` of roles: `site_id` when given, and `search` in the name or description when non-empty. */
  predicate Matches(role: Role, siteId: Option<Id>, search: Option<string>) {
    && (siteId.Some? ==> role.siteId == siteId)
    && (search.Some? && search.value != "" ==>
          Contains(role.name, search.value) ||
          (role.description.Some? && Contains(role.description.value, search.value)))
  }

  function MatchingRoles(roles: seq<Role>, siteId: Option<Id>, search: Option<string>): (r: seq<Role>)
    ensures forall x :: x in r <==> x in roles && Matches(x, siteId, search)
  {
    if |roles| == 0 then []
    else if Matches(roles[0], siteId, search) then [roles[0]] + MatchingRoles(roles[1..], siteId, search)
    else MatchingRoles(roles[1..], siteId, search)
  }

  /** `orderBy: { id: 'desc' }`. */
  ghost predicate Descending(rs: seq<Role>) {
    forall i, j :: 0 <= i < j < |rs| ==> rs[i].id >= rs[j].id
  }

  function Insert(x: Role, rs: seq<Role>): (r: seq<Role>)
    ensures multiset(r) == multiset(rs) + multiset{x}
    ensures forall y :: y in r ==> y == x || y in rs
  {
    if |rs| == 0 then [x]
    else if x.id >= rs[0].id then [x] + rs
    else
      assert rs == [rs[0]] + rs[1..];
      [rs[0]] + Insert(x, rs[1..])
  }

  lemma DescendingTail(rs: seq<Role>)
    requires |rs| > 0 && Descending(rs)
    ensures Descending(rs[1..])
  {
    forall i, j | 0 <= i < j < |rs[1..]| ensures rs[1..][i].id >= rs[1..][j].id {
      assert rs[1..][i] == rs[i + 1] && rs[1..][j] == rs[j + 1];
    }
  }

  lemma {:induction false} InsertDescending(x: Role, rs: seq<Role>)
    requires Descending(rs)
    ensures Descending(Insert(x, rs))
  {
    if |rs| > 0 && x.id < rs[0].id {
      var tail := Insert(x, rs[1..]);
      DescendingTail(rs);
      InsertDescending(x, rs[1..]);
      forall k | 0 <= k < |tail| ensures rs[0].id >= tail[k].id {
        assert tail[k] in tail;
        if tail[k] != x {
          var m :| 0 <= m < |rs[1..]| && rs[1..][m] == tail[k];
          assert rs[m + 1] == tail[k];
        }
      }
      var r := [rs[0]] + tail;
      forall i, j | 0 <= i < j < |r| ensures r[i].id >= r[j].id {
        if i == 0 {
          assert r[j] == tail[j - 1];
        } else {
          assert r[i] == tail[i - 1] && r[j] == tail[j - 1];
        }
      }
    }
  }

  /** Insertion sort by id, largest first. */
  function SortByIdDesc(rs: seq<Role>): (r: seq<Role>)
    ensures multiset(r) == multiset(rs)
    ensures Descending(r)
  {
    if |rs| == 0 then []
    else
      assert rs == [rs[0]] + rs[1..];
      var sorted := SortByIdDesc(rs[1..]);
      InsertDescending(rs[0], sorted);
      Insert(rs[0], sorted)
  }

  function Views(st: Store, rs: seq<Role>): (r: seq<RoleView>)
    ensures |r| == |rs|
    ensures forall i :: 0 <= i < |rs| ==> r[i] == View(st, rs[i])
  {
    if |rs| == 0 then [] else [View(st, rs[0])] + Views(st, rs[1..])
  }

  /** The views of a sorted permutation list each row once, in the sorted order. */
  lemma ViewsOfPermutation(st: Store, rows: seq<Role>, sorted: seq<Role>)
    requires multiset(sorted) == multiset(rows)
    requires Descending(sorted)
    ensures var r := Views(st, sorted);
      && |r| == |rows|
      && (forall i, j :: 0 <= i < j < |r| ==> r[i].id >= r[j].id)
      && (forall x :: x in rows ==> View(st, x) in r)
      && (forall v :: v in r ==> exists x :: x in rows && v == View(st, x))
  {
    var r := Views(st, sorted);
    assert |sorted| == |rows| by {
      assert |multiset(sorted)| == |multiset(rows)|;
    }
    ViewsOrdered(st, sorted);
    ViewsCover(st, rows, sorted);
    ViewsFromRows(st, rows, sorted);
  }

  lemma ViewsOrdered(st: Store, sorted: seq<Role>)
    requires Descending(sorted)
    ensures var r := Views(st, sorted); forall i, j :: 0 <= i < j < |r| ==> r[i].id >= r[j].id
  {
    var r := Views(st, sorted);
    forall i, j | 0 <= i < j < |r| ensures r[i].id >= r[j].id {
      assert r[i].id == sorted[i].id && r[j].id == sorted[j].id;
    }
  }

  lemma ViewsCover(st: Store, rows: seq<Role>, sorted: seq<Role>)
    requires multiset(sorted) == multiset(rows)
    ensures forall x :: x in rows ==> View(st, x) in Views(st, sorted)
  {
    var r := Views(st, sorted);
    forall x | x in rows ensures View(st, x) in r {
      assert x in multiset(rows);
      var k :| 0 <= k < |sorted| && sorted[k] == x;
      assert r[k] == View(st, x);
    }
  }

  lemma ViewsFromRows(st: Store, rows: seq<Role>, sorted: seq<Role>)
    requires multiset(sorted) == multiset(rows)
    ensures forall v :: v in Views(st, sorted) ==> exists x :: x in rows && v == View(st, x)
  {
    var r := Views(st, sorted);
    forall v | v in r ensures exists x :: x in rows && v == View(st, x) {
      var k :| 0 <= k < |r| && r[k] == v;
      assert sorted[k] in multiset(sorted);
      assert sorted[k] in rows;
    }
  }

  /**
   * roles (app/graphql/resolvers/role.ts:41-106): unauthenticated callers and
   * store failures get `[]`; otherwise every matching role once per row,
   * largest id first.
   */
  function Roles(st: Store, ctx: Context, req: Request, siteId: Option<Id>, search: Option<string>): (r: seq<RoleView>)
    ensures ctx.user.None? || RolesTable in req.down ==> r == []
    ensures ctx.user.Some? && RolesTable !in req.down ==>
      && |r| == |MatchingRoles(st.roles, siteId, search)|
      && (forall i, j :: 0 <= i < j < |r| ==> r[i].id >= r[j].id)
      && (forall x :: x in st.roles && Matches(x, siteId, search) ==> View(st, x) in r)
      && (forall v :: v in r ==> exists x :: x in st.roles && Matches(x, siteId, search) && v == View(st, x))
  {
    if ctx.user.None? || RolesTable in req.down then []
    else
      var matching := MatchingRoles(st.roles, siteId, search);
      var sorted := SortByIdDesc(matching);
      ViewsOfPermutation(st, matching, sorted);
      Views(st, sorted)
  }

  /** A non-empty search only ever narrows the list. */
  lemma SearchNarrows(st: Store, ctx: Context, req: Request, siteId: Option<Id>, search: string)
    ensures forall v :: v in Roles(st, ctx, req, siteId, Some(search)) ==> v in Roles(st, ctx, req, siteId, None)
  {
  }

  /** A nullable GraphQL input field: left out, an explicit `null`, or a value. */
  datatype Field<T> = Absent | Null | Given(value: T)

  /** What a Prisma `create` stores for the field: left out and `null` both give NULL. */
  function Stored<T>(f: Field<T>): Option<T> {
    if f.Given? then Some(f.value) else None
  }

  /** What a Prisma `update` leaves in the column: left out keeps it, `null` clears it. */
  function Updated<T>(f: Field<T>, prior: Option<T>): Option<T> {
    match f
    case Absent => prior
    case Null => None
    case Given(v) => Some(v)
  }

  /**
   * The create and update inputs: `name` is mandatory; a missing or `null`
   * permission list is read as empty by `?.map(...) || []`.
   */
  datatype RoleInput = RoleInput(
    name: string,
    description: Field<string>,
    siteId: Field<Id>,
    permissionIds: Option<seq<Id>>)

  /** One grant per listed permission, at the input's site, on no page. */
  function Grants(roleId: Id, ids: Option<seq<Id>>, siteId: Option<Id>): (r: seq<RolePermission>)
    ensures ids.None? ==> r == []
    ensures ids.Some? ==> |r| == |ids.value|
    ensures ids.Some? ==> forall i :: 0 <= i < |r| ==> r[i] == RolePermission(roleId, ids.value[i], siteId, None)
  {
    if ids.None? then [] else GrantRows(roleId, ids.value, siteId)
  }

  function GrantRows(roleId: Id, ids: seq<Id>, siteId: Option<Id>): (r: seq<RolePermission>)
    ensures |r| == |ids|
    ensures forall i :: 0 <= i < |r| ==> r[i] == RolePermission(roleId, ids[i], siteId, None)
  {
    if |ids| == 0 then [] else [RolePermission(roleId, ids[0], siteId, None)] + GrantRows(roleId, ids[1..], siteId)
  }

  /** The foreign keys of a create or update: the site, if any, and every listed permission exist. */
  predicate ReferencesExist(st: Store, siteId: Option<Id>, ids: Option<seq<Id>>) {
    && (siteId.Some? ==> exists s :: s in st.sites && s.id == siteId.value)
    && (ids.Some? ==> forall i :: 0 <= i < |ids.value| ==> exists p :: p in st.permissions && p.id == ids.value[i])
  }

  /** createRole (app/graphql/resolvers/role.ts:109-148): one nested create, all or nothing. */
  function CreateRole(st: Store, ctx: Context, input: RoleInput): (r: (Result<RoleView>, Store))
    ensures r.0.Ok? <==> ctx.user.Some? && ReferencesExist(st, Stored(input.siteId), input.permissionIds)
    ensures r.0 == Err(AuthenticationRequired) <==> ctx.user.None?
    ensures r.0 == Err(ConstraintViolation) <==> ctx.user.Some? && !ReferencesExist(st, Stored(input.siteId), input.permissionIds)
    ensures r.0.Err? ==> r.1 == st
    ensures r.0.Ok? ==>
      var role := Role(r.0.value.id, input.name, Stored(input.description), Stored(input.siteId));
      && (forall x :: x in st.roles ==> x.id != role.id)
      && r.1.roles == st.roles + [role]
      && r.1.rolePermissions == st.rolePermissions + Grants(role.id, input.permissionIds, Stored(input.siteId))
      && r.1.(roles := st.roles, rolePermissions := st.rolePermissions) == st
      && r.0.value == View(r.1, role)
  {
    if ctx.user.None? then (Err(AuthenticationRequired), st)
    else if !ReferencesExist(st, Stored(input.siteId), input.permissionIds) then (Err(ConstraintViolation), st)
    else
      var role := Role(NewRoleId(st), input.name, Stored(input.description), Stored(input.siteId));
      var st1 := st.(roles := st.roles + [role],
                     rolePermissions := st.rolePermissions + Grants(role.id, input.permissionIds, Stored(input.siteId)));
      (Ok(View(st1, role)), st1)
  }

  lemma {:induction false} FindRoleAppended(roles: seq<Role>, role: Role)
    requires forall x :: x in roles ==> x.id != role.id
    ensures FindRole(roles + [role], role.id) == Some(role)
  {
    if |roles| == 0 {
      assert roles + [role] == [role];
    } else {
      assert (roles + [role])[1..] == roles[1..] + [role];
      assert forall x :: x in roles[1..] ==> x in roles;
      FindRoleAppended(roles[1..], role);
    }
  }

  /**
   * A created role is found again by `role(id)`, for any signed-in caller,
   * with every listed permission among those it reports.
   */
  lemma CreateThenRoleById(st: Store, ctx: Context, input: RoleInput, ctx': Context)
    requires ctx.user.Some? && ReferencesExist(st, Stored(input.siteId), input.permissionIds)
    requires ctx'.user.Some?
    ensures var (r, st') := CreateRole(st, ctx, input);
            && r.Ok?
            && RoleById(st', ctx', r.value.id) == Ok(r.value)
            && (input.permissionIds.Some? ==>
                  forall i :: 0 <= i < |input.permissionIds.value| ==>
                    FindPermissionById(st.permissions, input.permissionIds.value[i]).Some? &&
                    FindPermissionById(st.permissions, input.permissionIds.value[i]).value in r.value.permissions)
  {
    var (r, st') := CreateRole(st, ctx, input);
    var role := Role(r.value.id, input.name, Stored(input.description), Stored(input.siteId));
    FindRoleAppended(st.roles, role);
    if input.permissionIds.Some? {
      var ids := input.permissionIds.value;
      var g := Grants(role.id, input.permissionIds, Stored(input.siteId));
      forall i | 0 <= i < |ids|
        ensures FindPermissionById(st.permissions, ids[i]).Some? &&
                FindPermissionById(st.permissions, ids[i]).value in r.value.permissions
      {
        assert g[i] in st'.rolePermissions;
        var p :| p in st.permissions && p.id == ids[i];
      }
    }
  }

  function ReplaceRole(roles: seq<Role>, id: Id, role: Role): (r: seq<Role>)
    ensures |r| == |roles|
    ensures forall i :: 0 <= i < |roles| ==> r[i] == (if roles[i].id == id then role else roles[i])
  {
    if |roles| == 0 then []
    else [if roles[0].id == id then role else roles[0]] + ReplaceRole(roles[1..], id, role)
  }

  /**
   * updateRole (app/graphql/resolvers/role.ts:151-197). The grants are
   * deleted by a statement of their own before the update, so an update
   * that then fails leaves the role with no grants.
   */
  function UpdateRole(st: Store, ctx: Context, id: Id, input: RoleInput): (r: (Result<RoleView>, Store))
    ensures r.0.Ok? <==>
              ctx.user.Some? && FindRole(st.roles, id).Some? && ReferencesExist(st, Stored(input.siteId), input.permissionIds)
    ensures r.0 == Err(AuthenticationRequired) <==> ctx.user.None?
    ensures ctx.user.None? ==> r.1 == st
    ensures r.0 == Err(RecordNotFound) <==> ctx.user.Some? && FindRole(st.roles, id).None?
    ensures r.0 == Err(ConstraintViolation) <==>
              ctx.user.Some? && FindRole(st.roles, id).Some? && !ReferencesExist(st, Stored(input.siteId), input.permissionIds)
    ensures ctx.user.Some? ==>
      && (forall rp :: rp in r.1.rolePermissions && rp.roleId != id <==> rp in st.rolePermissions && rp.roleId != id)
      && r.1.(roles := st.roles, rolePermissions := st.rolePermissions) == st
    ensures r.0.Err? && ctx.user.Some? ==>
              r.1.roles == st.roles && forall rp :: rp in r.1.rolePermissions ==> rp.roleId != id
    ensures r.0.Ok? ==>
      && (forall rp :: rp in r.1.rolePermissions && rp.roleId == id <==>
            rp in Grants(id, input.permissionIds, Stored(input.siteId)))
      && var prior := FindRole(st.roles, id).value;
         var role := Role(id, input.name,
                          Updated(input.description, prior.description),
                          Updated(input.siteId, prior.siteId));
         r.1.roles == ReplaceRole(st.roles, id, role) && r.0.value == View(r.1, role)
  {
    if ctx.user.None? then (Err(AuthenticationRequired), st)
    else
      var st1 := st.(rolePermissions := Keep(st.rolePermissions, (rp: RolePermission) => rp.roleId != id));
      match FindRole(st.roles, id)
      case None => (Err(RecordNotFound), st1)
      case Some(prior) =>
        if !ReferencesExist(st, Stored(input.siteId), input.permissionIds) then (Err(ConstraintViolation), st1)
        else
          var role := Role(id, input.name,
                           Updated(input.description, prior.description),
                           Updated(input.siteId, prior.siteId));
          var st2 := st1.(roles := ReplaceRole(st.roles, id, role),
                          rolePermissions := st1.rolePermissions + Grants(id, input.permissionIds, Stored(input.siteId)));
          (Ok(View(st2, role)), st2)
  }

  /** deleteRole (app/graphql/resolvers/role.ts:200-221): three statements, the role's rows first. */
  function DeleteRole(st: Store, ctx: Context, id: Id): (r: (Result<Id>, Store))
    ensures r.0.Ok? <==> ctx.user.Some? && FindRole(st.roles, id).Some?
    ensures r.0 == Err(AuthenticationRequired) <==> ctx.user.None?
    ensures ctx.user.None? ==> r.1 == st
    ensures r.0 == Err(RecordNotFound) <==> ctx.user.Some? && FindRole(st.roles, id).None?
    ensures r.0.Ok? ==> r.0.value == id
    ensures ctx.user.Some? ==>
      && (forall ur :: ur in r.1.userRoles <==> ur in st.userRoles && ur.roleId != id)
      && (forall rp :: rp in r.1.rolePermissions <==> rp in st.rolePermissions && rp.roleId != id)
      && (forall x :: x in r.1.roles <==> x in st.roles && (r.0.Ok? ==> x.id != id))
      && r.1.(roles := st.roles, userRoles := st.userRoles, rolePermissions := st.rolePermissions) == st
  {
    if ctx.user.None? then (Err(AuthenticationRequired), st)
    else
      var st1 := st.(userRoles := Keep(st.userRoles, (ur: UserRole) => ur.roleId != id),
                     rolePermissions := Keep(st.rolePermissions, (rp: RolePermission) => rp.roleId != id));
      if FindRole(st.roles, id).None? then (Err(RecordNotFound), st1)
      else (Ok(id), st1.(roles := Keep(st.roles, (x: Role) => x.id != id)))
  }

  /**
   * Removing assignment and grant rows, with sites, pages and permissions
   * unchanged, never turns a denied check into a granted one.
   */
  lemma FewerRowsNeverGrant(st: Store, st': Store, userId: Id, code: string, domain: string, path: string)
    requires st'.sites == st.sites && st'.pages == st.pages && st'.permissions == st.permissions
    requires forall ur :: ur in st'.userRoles ==> ur in st.userRoles
    requires forall rp :: rp in st'.rolePermissions ==> rp in st.rolePermissions
    ensures HasPermissionForSite(st', userId, code, domain) ==> HasPermissionForSite(st, userId, code, domain)
    ensures HasPermissionForPage(st', userId, code, domain, path) ==> HasPermissionForPage(st, userId, code, domain, path)
  {
    if HasPermissionForSite(st', userId, code, domain) {
      var site, perm := FindSite(st.sites, domain).value, FindPermission(st.permissions, code).value;
      var ur, rp :| ur in st'.userRoles && rp in st'.rolePermissions &&
        Applies(ur, userId, site.id) && rp.roleId == ur.roleId && rp.permissionId == perm.id &&
        (rp.siteId == Some(site.id) || rp.siteId.None?);
      assert ur in st.userRoles && rp in st.rolePermissions;
    }
    if HasPermissionForPage(st', userId, code, domain, path) {
      var site, perm := FindSite(st.sites, domain).value, FindPermission(st.permissions, code).value;
      var page := FindPage(st.pages, site.id, path).value;
      var ur, rp :| ur in st'.userRoles && rp in st'.rolePermissions &&
        Applies(ur, userId, site.id) && rp.roleId == ur.roleId && rp.permissionId == perm.id &&
        (rp.pageId == Some(page.id) || (rp.siteId == Some(site.id) && rp.pageId.None?) ||
         (rp.siteId.None? && rp.pageId.None?));
      assert ur in st.userRoles && rp in st.rolePermissions;
    }
  }

  /** Deleting a role never grants a permission that was not already held. */
  lemma DeleteRoleNeverGrants(st: Store, ctx: Context, id: Id, userId: Id, code: string, domain: string, path: string)
    ensures var st' := DeleteRole(st, ctx, id).1;
            && (HasPermissionForSite(st', userId, code, domain) ==> HasPermissionForSite(st, userId, code, domain))
            && (HasPermissionForPage(st', userId, code, domain, path) ==> HasPermissionForPage(st, userId, code, domain, path))
  {
    var st' := DeleteRole(st, ctx, id).1;
    assert st'.sites == st.sites && st'.pages == st.pages && st'.permissions == st.permissions;
    FewerRowsNeverGrant(st, st', userId, code, domain, path);
  }

  /**
   * When a user's only applicable role on a site is `roleId`, the site check
   * is decided by that role's grants alone.
   */
  lemma SiteCheckThroughOneRole(st: Store, userId: Id, code: string, domain: string, roleId: Id, grants: seq<RolePermission>)
    requires FindSite(st.sites, domain).Some? && FindPermission(st.permissions, code).Some?
    requires exists ur :: ur in st.userRoles && Applies(ur, userId, FindSite(st.sites, domain).value.id) && ur.roleId == roleId
    requires forall ur :: ur in st.userRoles && Applies(ur, userId, FindSite(st.sites, domain).value.id) ==> ur.roleId == roleId
    requires forall rp :: rp in st.rolePermissions && rp.roleId == roleId <==> rp in grants
    ensures HasPermissionForSite(st, userId, code, domain) <==>
            exists rp :: rp in grants && rp.permissionId == FindPermission(st.permissions, code).value.id &&
                         (rp.siteId == Some(FindSite(st.sites, domain).value.id) || rp.siteId.None?)
  {
    var site, perm := FindSite(st.sites, domain).value, FindPermission(st.permissions, code).value;
    if HasPermissionForSite(st, userId, code, domain) {
      var ur, rp :| ur in st.userRoles && rp in st.rolePermissions &&
        Applies(ur, userId, site.id) && rp.roleId == ur.roleId && rp.permissionId == perm.id &&
        (rp.siteId == Some(site.id) || rp.siteId.None?);
      assert rp in grants;
    }
    if exists rp :: rp in grants && rp.permissionId == perm.id && (rp.siteId == Some(site.id) || rp.siteId.None?) {
      var rp :| rp in grants && rp.permissionId == perm.id && (rp.siteId == Some(site.id) || rp.siteId.None?);
      var ur :| ur in st.userRoles && Applies(ur, userId, site.id) && ur.roleId == roleId;
      assert rp in st.rolePermissions && rp.roleId == ur.roleId;
    }
  }

  /** The same, when the role's grants are exactly the rows `Grants` builds for `ids` at `siteId`. */
  lemma ListedGrantsDecideSiteCheck(st: Store, userId: Id, code: string, domain: string, roleId: Id,
                                    ids: seq<Id>, siteId: Option<Id>)
    requires FindSite(st.sites, domain).Some? && FindPermission(st.permissions, code).Some?
    requires exists ur :: ur in st.userRoles && Applies(ur, userId, FindSite(st.sites, domain).value.id) && ur.roleId == roleId
    requires forall ur :: ur in st.userRoles && Applies(ur, userId, FindSite(st.sites, domain).value.id) ==> ur.roleId == roleId
    requires forall rp :: rp in st.rolePermissions && rp.roleId == roleId <==> rp in Grants(roleId, Some(ids), siteId)
    ensures HasPermissionForSite(st, userId, code, domain) <==>
            FindPermission(st.permissions, code).value.id in ids &&
            (siteId.None? || siteId == Some(FindSite(st.sites, domain).value.id))
  {
    var site, perm := FindSite(st.sites, domain).value, FindPermission(st.permissions, code).value;
    var grants := Grants(roleId, Some(ids), siteId);
    SiteCheckThroughOneRole(st, userId, code, domain, roleId, grants);
    if exists rp :: rp in grants && rp.permissionId == perm.id && (rp.siteId == Some(site.id) || rp.siteId.None?) {
      var rp :| rp in grants && rp.permissionId == perm.id && (rp.siteId == Some(site.id) || rp.siteId.None?);
      var k :| 0 <= k < |grants| && grants[k] == rp;
      assert ids[k] == perm.id;
    }
    if perm.id in ids && (siteId.None? || siteId == Some(site.id)) {
      var k :| 0 <= k < |ids| && ids[k] == perm.id;
      assert grants[k] in grants;
    }
  }

  /**
   * After an update a user whose only applicable role on the site is the
   * updated one passes the site check exactly for the listed permissions,
   * at the input's site; with no `site_id` in the input the new grants are
   * system-wide and so count on every site, whatever the role's own site.
   */
  lemma UpdateRoleDecidesSiteCheck(st: Store, ctx: Context, id: Id, input: RoleInput,
                                   userId: Id, code: string, domain: string)
    requires ctx.user.Some? && FindRole(st.roles, id).Some? && ReferencesExist(st, Stored(input.siteId), input.permissionIds)
    requires input.permissionIds.Some?
    requires FindSite(st.sites, domain).Some? && FindPermission(st.permissions, code).Some?
    requires exists ur :: ur in st.userRoles && Applies(ur, userId, FindSite(st.sites, domain).value.id) && ur.roleId == id
    requires forall ur :: ur in st.userRoles && Applies(ur, userId, FindSite(st.sites, domain).value.id) ==> ur.roleId == id
    ensures HasPermissionForSite(UpdateRole(st, ctx, id, input).1, userId, code, domain) <==>
            FindPermission(st.permissions, code).value.id in input.permissionIds.value &&
            (Stored(input.siteId).None? || Stored(input.siteId) == Some(FindSite(st.sites, domain).value.id))
  {
    var st' := UpdateRole(st, ctx, id, input).1;
    assert st'.sites == st.sites && st'.permissions == st.permissions && st'.userRoles == st.userRoles;
    ListedGrantsDecideSiteCheck(st', userId, code, domain, id, input.permissionIds.value, Stored(input.siteId));
  }
}
