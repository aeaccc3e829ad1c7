/**
 * The permission resolver of app/utils/permissions.ts: whether a user holds a
 * permission on a site or on one page of it, and the two sentinel checks for
 * the role named `admin`. Each check is a pure predicate over the store.
 */
module Permissions {
  import opened Rows

  /** `site.findUnique({ where: { domain } })`. */
  function FindSite(sites: seq<Site>, domain: string): (r: Option<Site>)
    ensures r.Some? ==> r.value in sites && r.value.domain == domain
    ensures r.None? <==> forall s :: s in sites ==> s.domain != domain
  {
    if |sites| == 0 then None
    else if sites[0].domain == domain then Some(sites[0])
    else FindSite(sites[1..], domain)
  }

  /** `page.findFirst({ where: { site_id, path } })`. */
  function FindPage(pages: seq<Page>, siteId: Id, path: string): (r: Option<Page>)
    ensures r.Some? ==> r.value in pages && r.value.siteId == siteId && r.value.path == path
    ensures r.None? <==> forall p :: p in pages ==> !(p.siteId == siteId && p.path == path)
  {
    if |pages| == 0 then None
    else if pages[0].siteId == siteId && pages[0].path == path then Some(pages[0])
    else FindPage(pages[1..], siteId, path)
  }

  /** `permission.findUnique({ where: { code } })`. */
  function FindPermission(perms: seq<Permission>, code: string): (r: Option<Permission>)
    ensures r.Some? ==> r.value in perms && r.value.code == code
    ensures r.None? <==> forall p :: p in perms ==> p.code != code
  {
    if |perms| == 0 then None
    else if perms[0].code == code then Some(perms[0])
    else FindPermission(perms[1..], code)
  }

  /** An assignment of the user that applies on `siteId`: scoped to it, or unscoped. */
  predicate Applies(ur: UserRole, userId: Id, siteId: Id) {
    ur.userId == userId && (ur.siteId == Some(siteId) || ur.siteId.None?)
  }

  /** The role ids of the user's applicable assignments (`roleIds` in the source). */
  function HeldRoles(userRoles: seq<UserRole>, userId: Id, siteId: Id): set<Id> {
    set ur | ur in userRoles && Applies(ur, userId, siteId) :: ur.roleId
  }

  /** The grant test of the site check: site or null, whatever the page. */
  predicate SiteCheckGrant(rp: RolePermission, roles: set<Id>, permId: Id, siteId: Id) {
    rp.roleId in roles && rp.permissionId == permId && (rp.siteId == Some(siteId) || rp.siteId.None?)
  }

  /** Tier (a) of the page check: exactly this page, whatever the site. */
  predicate PageTier(rp: RolePermission, roles: set<Id>, permId: Id, pageId: Id) {
    rp.roleId in roles && rp.permissionId == permId && rp.pageId == Some(pageId)
  }

  /** Tier (b) of the page check: this site, no page. */
  predicate SiteTier(rp: RolePermission, roles: set<Id>, permId: Id, siteId: Id) {
    rp.roleId in roles && rp.permissionId == permId && rp.siteId == Some(siteId) && rp.pageId.None?
  }

  /** Tier (c) of the page check: no site, no page. */
  predicate SystemTier(rp: RolePermission, roles: set<Id>, permId: Id) {
    rp.roleId in roles && rp.permissionId == permId && rp.siteId.None? && rp.pageId.None?
  }

  /**
   * The entitlement the page check decides, stated as one join instead of
   * the source's sequence of lookups: some applicable assignment of the
   * user names a role holding the permission at one of the three tiers.
   */
  ghost predicate PageEntitled(st: Store, userId: Id, site: Site, page: Page, perm: Permission) {
    exists ur, rp :: ur in st.userRoles && rp in st.rolePermissions &&
      Applies(ur, userId, site.id) && rp.roleId == ur.roleId && rp.permissionId == perm.id &&
      (rp.pageId == Some(page.id) ||
       (rp.siteId == Some(site.id) && rp.pageId.None?) ||
       (rp.siteId.None? && rp.pageId.None?))
  }

  /** The same join for the site check, which places no constraint on the page. */
  ghost predicate SiteEntitled(st: Store, userId: Id, site: Site, perm: Permission) {
    exists ur, rp :: ur in st.userRoles && rp in st.rolePermissions &&
      Applies(ur, userId, site.id) && rp.roleId == ur.roleId && rp.permissionId == perm.id &&
      (rp.siteId == Some(site.id) || rp.siteId.None?)
  }

  /** hasPermissionForSite (app/utils/permissions.ts:4-55). */
  function HasPermissionForSite(st: Store, userId: Id, code: string, domain: string): (r: bool)
    ensures FindSite(st.sites, domain).None? ==> !r
    ensures FindPermission(st.permissions, code).None? ==> !r
    ensures (forall ur :: ur in st.userRoles ==> ur.userId != userId) ==> !r
    ensures r <==>
      && FindSite(st.sites, domain).Some?
      && FindPermission(st.permissions, code).Some?
      && SiteEntitled(st, userId, FindSite(st.sites, domain).value, FindPermission(st.permissions, code).value)
  {
    match FindSite(st.sites, domain)
    case None => false
    case Some(site) =>
      var roles := HeldRoles(st.userRoles, userId, site.id);
      assert forall ur :: ur in st.userRoles && Applies(ur, userId, site.id) ==> ur.roleId in roles;
      if roles == {} then false
      else
        match FindPermission(st.permissions, code)
        case None => false
        case Some(perm) =>
          exists rp :: rp in st.rolePermissions && SiteCheckGrant(rp, roles, perm.id, site.id)
  }

  /** hasPermissionForPage (app/utils/permissions.ts:58-140). */
  function HasPermissionForPage(st: Store, userId: Id, code: string, domain: string, path: string): (r: bool)
    ensures FindSite(st.sites, domain).None? ==> !r
    ensures FindSite(st.sites, domain).Some? && FindPage(st.pages, FindSite(st.sites, domain).value.id, path).None? ==> !r
    ensures FindPermission(st.permissions, code).None? ==> !r
    ensures (forall ur :: ur in st.userRoles ==> ur.userId != userId) ==> !r
    ensures r <==>
      && FindSite(st.sites, domain).Some?
      && FindPage(st.pages, FindSite(st.sites, domain).value.id, path).Some?
      && FindPermission(st.permissions, code).Some?
      && PageEntitled(st, userId, FindSite(st.sites, domain).value,
                      FindPage(st.pages, FindSite(st.sites, domain).value.id, path).value,
                      FindPermission(st.permissions, code).value)
  {
    match FindSite(st.sites, domain)
    case None => false
    case Some(site) =>
      match FindPage(st.pages, site.id, path)
      case None => false
      case Some(page) =>
        var roles := HeldRoles(st.userRoles, userId, site.id);
        assert forall ur :: ur in st.userRoles && Applies(ur, userId, site.id) ==> ur.roleId in roles;
        if roles == {} then false
        else
          match FindPermission(st.permissions, code)
          case None => false
          case Some(perm) =>
            if exists rp :: rp in st.rolePermissions && PageTier(rp, roles, perm.id, page.id) then true
            else if exists rp :: rp in st.rolePermissions && SiteTier(rp, roles, perm.id, site.id) then true
            else exists rp :: rp in st.rolePermissions && SystemTier(rp, roles, perm.id)
  }

  /** `role.findFirst` for `admin` scoped to the site or system-wide, in store order. */
  function FindSiteAdminRole(roles: seq<Role>, siteId: Id): (r: Option<Role>)
    ensures r.Some? ==> r.value in roles && r.value.name == "admin" &&
                        (r.value.siteId == Some(siteId) || r.value.siteId.None?)
    ensures r.None? <==> forall x :: x in roles ==> !(x.name == "admin" && (x.siteId == Some(siteId) || x.siteId.None?))
  {
    if |roles| == 0 then None
    else if roles[0].name == "admin" && (roles[0].siteId == Some(siteId) || roles[0].siteId.None?) then Some(roles[0])
    else FindSiteAdminRole(roles[1..], siteId)
  }

  /** The role picked is the earliest candidate in store order, as `findFirst` promises. */
  lemma {:induction false} FindSiteAdminRoleFirst(roles: seq<Role>, siteId: Id, j: nat)
    requires j < |roles|
    requires roles[j].name == "admin" && (roles[j].siteId == Some(siteId) || roles[j].siteId.None?)
    requires forall k :: 0 <= k < j ==> !(roles[k].name == "admin" && (roles[k].siteId == Some(siteId) || roles[k].siteId.None?))
    ensures FindSiteAdminRole(roles, siteId) == Some(roles[j])
  {
    if j > 0 {
      assert !(roles[0].name == "admin" && (roles[0].siteId == Some(siteId) || roles[0].siteId.None?));
      forall k | 0 <= k < j - 1
        ensures !(roles[1..][k].name == "admin" && (roles[1..][k].siteId == Some(siteId) || roles[1..][k].siteId.None?))
      {
        assert roles[1..][k] == roles[k + 1];
      }
      FindSiteAdminRoleFirst(roles[1..], siteId, j - 1);
    }
  }

  /** isAdmin (app/utils/permissions.ts:143-163). */
  function IsAdmin(st: Store, userId: Id): (r: bool)
    ensures FindSystemRole(st.roles, "admin").None? ==> !r
    ensures r <==> FindSystemRole(st.roles, "admin").Some? &&
                   exists ur :: ur in st.userRoles && ur.userId == userId &&
                                ur.roleId == FindSystemRole(st.roles, "admin").value.id
  {
    match FindSystemRole(st.roles, "admin")
    case None => false
    case Some(admin) => exists ur :: ur in st.userRoles && ur.userId == userId && ur.roleId == admin.id
  }

  /** isSiteAdmin (app/utils/permissions.ts:166-200). */
  function IsSiteAdmin(st: Store, userId: Id, domain: string): (r: bool)
    ensures FindSite(st.sites, domain).None? ==> !r
    ensures r <==>
      && FindSite(st.sites, domain).Some?
      && FindSiteAdminRole(st.roles, FindSite(st.sites, domain).value.id).Some?
      && exists ur :: ur in st.userRoles &&
           Applies(ur, userId, FindSite(st.sites, domain).value.id) &&
           ur.roleId == FindSiteAdminRole(st.roles, FindSite(st.sites, domain).value.id).value.id
  {
    match FindSite(st.sites, domain)
    case None => false
    case Some(site) =>
      match FindSiteAdminRole(st.roles, site.id)
      case None => false
      case Some(admin) => exists ur :: ur in st.userRoles && Applies(ur, userId, site.id) && ur.roleId == admin.id
  }
}
