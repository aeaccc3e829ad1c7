/**
 * Properties of the permission resolver: which rows can and cannot change
 * its answer, how the page and site checks relate, and what the `admin`
 * sentinels do and do not look at.
 */
module PermissionLaws {
  import opened Rows
  import opened Permissions

  /** Adding grant rows never turns a granted check into a denied one. */
  lemma GrantsMonotone(st: Store, more: seq<RolePermission>, userId: Id, code: string, domain: string, path: string)
    requires forall rp :: rp in st.rolePermissions ==> rp in more
    ensures HasPermissionForSite(st, userId, code, domain) ==>
            HasPermissionForSite(st.(rolePermissions := more), userId, code, domain)
    ensures HasPermissionForPage(st, userId, code, domain, path) ==>
            HasPermissionForPage(st.(rolePermissions := more), userId, code, domain, path)
  {
    var st' := st.(rolePermissions := more);
    if HasPermissionForSite(st, userId, code, domain) {
      var site, perm := FindSite(st.sites, domain).value, FindPermission(st.permissions, code).value;
      var ur, rp :| ur in st.userRoles && rp in st.rolePermissions &&
        Applies(ur, userId, site.id) && rp.roleId == ur.roleId && rp.permissionId == perm.id &&
        (rp.siteId == Some(site.id) || rp.siteId.None?);
      assert rp in st'.rolePermissions;
    }
    if HasPermissionForPage(st, userId, code, domain, path) {
      var site, perm := FindSite(st.sites, domain).value, FindPermission(st.permissions, code).value;
      var page := FindPage(st.pages, site.id, path).value;
      var ur, rp :| ur in st.userRoles && rp in st.rolePermissions &&
        Applies(ur, userId, site.id) && rp.roleId == ur.roleId && rp.permissionId == perm.id &&
        (rp.pageId == Some(page.id) || (rp.siteId == Some(site.id) && rp.pageId.None?) ||
         (rp.siteId.None? && rp.pageId.None?));
      assert rp in st'.rolePermissions;
    }
  }

  /** An assignment scoped to another site never contributes to either check. */
  lemma ForeignAssignmentIgnored(st: Store, ur: UserRole, userId: Id, code: string, domain: string, path: string)
    requires ur.siteId.Some?
    requires FindSite(st.sites, domain).Some? ==> ur.siteId != Some(FindSite(st.sites, domain).value.id)
    ensures HasPermissionForSite(st.(userRoles := st.userRoles + [ur]), userId, code, domain) ==
            HasPermissionForSite(st, userId, code, domain)
    ensures HasPermissionForPage(st.(userRoles := st.userRoles + [ur]), userId, code, domain, path) ==
            HasPermissionForPage(st, userId, code, domain, path)
  {
    var st' := st.(userRoles := st.userRoles + [ur]);
    if FindSite(st.sites, domain).Some? {
      var site := FindSite(st.sites, domain).value;
      assert !Applies(ur, userId, site.id);
      assert forall x :: x in st'.userRoles && Applies(x, userId, site.id) ==> x in st.userRoles;
    }
  }

  /**
   * The site check ignores `page_id`: a grant scoped to one page, carrying
   * the site's id or no site at all, satisfies it for the whole site.
   */
  lemma PageScopedGrantPassesSiteCheck(st: Store, userId: Id, code: string, domain: string, ur: UserRole, rp: RolePermission)
    requires FindSite(st.sites, domain).Some? && FindPermission(st.permissions, code).Some?
    requires ur in st.userRoles && Applies(ur, userId, FindSite(st.sites, domain).value.id)
    requires rp in st.rolePermissions && rp.roleId == ur.roleId
    requires rp.permissionId == FindPermission(st.permissions, code).value.id
    requires rp.pageId.Some?
    requires rp.siteId == Some(FindSite(st.sites, domain).value.id) || rp.siteId.None?
    ensures HasPermissionForSite(st, userId, code, domain)
  {
  }

  /**
   * A granted page check implies the site check for the same user, code and
   * domain, provided every grant naming the page carries the page's site or
   * no site (a grant for the page filed under another site opens the page
   * but not the site).
   */
  lemma PageCheckImpliesSiteCheck(st: Store, userId: Id, code: string, domain: string, path: string)
    requires HasPermissionForPage(st, userId, code, domain, path)
    requires FindSite(st.sites, domain).Some? && FindPage(st.pages, FindSite(st.sites, domain).value.id, path).Some? ==>
               forall rp ::
                 (rp in st.rolePermissions &&
                  rp.pageId == Some(FindPage(st.pages, FindSite(st.sites, domain).value.id, path).value.id)) ==>
                 (rp.siteId == Some(FindSite(st.sites, domain).value.id) || rp.siteId.None?)
    ensures HasPermissionForSite(st, userId, code, domain)
  {
    var site, perm := FindSite(st.sites, domain).value, FindPermission(st.permissions, code).value;
    var page := FindPage(st.pages, site.id, path).value;
    var ur, rp :| ur in st.userRoles && rp in st.rolePermissions &&
      Applies(ur, userId, site.id) && rp.roleId == ur.roleId && rp.permissionId == perm.id &&
      (rp.pageId == Some(page.id) || (rp.siteId == Some(site.id) && rp.pageId.None?) ||
       (rp.siteId.None? && rp.pageId.None?));
    assert rp.siteId == Some(site.id) || rp.siteId.None?;
  }

  /**
   * The sentinel `isAdmin` looks only at the first system-wide role named
   * `admin` and at assignment rows; rewriting the site scope of any
   * assignment, or every permission and grant, leaves it unchanged.
   */
  lemma IsAdminIgnoresScopeAndGrants(st: Store, userId: Id, i: nat, scope: Option<Id>,
                                     perms: seq<Permission>, grants: seq<RolePermission>)
    requires i < |st.userRoles|
    ensures IsAdmin(st.(userRoles := st.userRoles[i := st.userRoles[i].(siteId := scope)]), userId) == IsAdmin(st, userId)
    ensures IsAdmin(st.(permissions := perms, rolePermissions := grants), userId) == IsAdmin(st, userId)
  {
    var urs := st.userRoles[i := st.userRoles[i].(siteId := scope)];
    match FindSystemRole(st.roles, "admin")
    case None =>
    case Some(admin) =>
      if IsAdmin(st, userId) {
        var ur :| ur in st.userRoles && ur.userId == userId && ur.roleId == admin.id;
        var j :| 0 <= j < |st.userRoles| && st.userRoles[j] == ur;
        assert urs[j].userId == userId && urs[j].roleId == admin.id;
      }
      if IsAdmin(st.(userRoles := urs), userId) {
        var ur :| ur in urs && ur.userId == userId && ur.roleId == admin.id;
        var j :| 0 <= j < |urs| && urs[j] == ur;
        assert st.userRoles[j].userId == userId && st.userRoles[j].roleId == admin.id;
      }
  }

  /** When every `admin` role is system-wide, the site lookup picks the same one as `isAdmin`. */
  lemma {:induction false} SiteAdminRoleIsSystemAdmin(roles: seq<Role>, siteId: Id)
    requires forall x :: x in roles && x.name == "admin" ==> x.siteId.None?
    ensures FindSiteAdminRole(roles, siteId) == FindSystemRole(roles, "admin")
  {
    if |roles| > 0 {
      assert forall x :: x in roles[1..] ==> x in roles;
      SiteAdminRoleIsSystemAdmin(roles[1..], siteId);
    }
  }

  /**
   * If the only `admin` roles are system-wide and the user holds the first
   * of them without a site scope, the user is admin and site admin of every
   * domain the store knows.
   */
  lemma SystemAdminIsSiteAdminEverywhere(st: Store, userId: Id, domain: string)
    requires forall x :: x in st.roles && x.name == "admin" ==> x.siteId.None?
    requires FindSystemRole(st.roles, "admin").Some?
    requires UserRole(userId, FindSystemRole(st.roles, "admin").value.id, None) in st.userRoles
    requires FindSite(st.sites, domain).Some?
    ensures IsAdmin(st, userId)
    ensures IsSiteAdmin(st, userId, domain)
  {
    var site := FindSite(st.sites, domain).value;
    SiteAdminRoleIsSystemAdmin(st.roles, site.id);
    var ur := UserRole(userId, FindSystemRole(st.roles, "admin").value.id, None);
    assert Applies(ur, userId, site.id);
  }

  // A two-site store in which one user holds the system `admin` role, but
  // only through an assignment scoped to the first site.
  function ScopedAdminStore(): Store {
    Store(
      users := [User(1, "a@example.com", None, None, None, None, true, None)],
      sessions := [],
      sites := [Site(10, "one.example"), Site(20, "two.example")],
      pages := [],
      roles := [Role(5, "admin", None, None)],
      userRoles := [UserRole(1, 5, Some(10))],
      permissions := [],
      rolePermissions := [],
      socialProviders := [],
      socialConnections := [],
      auditLogs := [])
  }

  /**
   * `isAdmin` ignores the scope of the assignment while `isSiteAdmin` honours
   * it: the user is admin, site admin of the first site, not of the second.
   */
  lemma ScopedAdminAssignment()
    ensures IsAdmin(ScopedAdminStore(), 1)
    ensures IsSiteAdmin(ScopedAdminStore(), 1, "one.example")
    ensures !IsSiteAdmin(ScopedAdminStore(), 1, "two.example")
  {
    var st := ScopedAdminStore();
    assert st.userRoles[0] in st.userRoles;
    assert FindSite(st.sites, "two.example") == Some(Site(20, "two.example"));
  }

  // One site with one page, one role held system-wide, and one grant of
  // VIEW to that role scoped to the page only.
  function PageGrantStore(grantSite: Option<Id>): Store {
    Store(
      users := [User(1, "a@example.com", None, None, None, None, true, None)],
      sessions := [],
      sites := [Site(10, "one.example")],
      pages := [Page(30, 10, "/home"), Page(31, 10, "/admin")],
      roles := [Role(7, "viewer", None, None)],
      userRoles := [UserRole(1, 7, None)],
      permissions := [Permission(3, "VIEW", "View", None)],
      rolePermissions := [RolePermission(7, 3, grantSite, Some(30))],
      socialProviders := [],
      socialConnections := [],
      auditLogs := [])
  }

  /**
   * A grant scoped to one page opens that page, not a sibling page, yet the
   * site check accepts it whether the grant carries the site's id or none.
   */
  lemma PageGrantPrecedence(grantSite: Option<Id>)
    requires grantSite == Some(10) || grantSite.None?
    ensures HasPermissionForPage(PageGrantStore(grantSite), 1, "VIEW", "one.example", "/home")
    ensures !HasPermissionForPage(PageGrantStore(grantSite), 1, "VIEW", "one.example", "/admin")
    ensures HasPermissionForSite(PageGrantStore(grantSite), 1, "VIEW", "one.example")
  {
    var st := PageGrantStore(grantSite);
    assert st.userRoles[0] in st.userRoles;
    assert st.rolePermissions[0] in st.rolePermissions;
    assert FindPage(st.pages, 10, "/admin") == Some(Page(31, 10, "/admin"));
  }
}
