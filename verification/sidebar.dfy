/** The sidebar: the navigation links for the signed-in user's role, the
    highlighted link, and the name and role under the avatar. */
module Sidebar {
  import opened Text
  import opened Records
  import App

  datatype NavItem = NavItem(path: string, icon: string, title: string, subtitle: string)

  /** `getNavItems`: a fixed list per role, and no links for a missing user
      or any other role. */
  function NavItems(user: Option<User>): (r: seq<NavItem>)
    ensures user.Some? && user.value.role == ADMIN ==> |r| == 4
    ensures user.Some? && user.value.role == HR ==> |r| == 4
    ensures user.Some? && user.value.role == MANAGER ==> |r| == 4
    ensures user.Some? && user.value.role == EMPLOYEE ==> |r| == 1
    ensures user.None? || user.value.role !in {ADMIN, HR, MANAGER, EMPLOYEE} ==> r == []
  {
    if user.None? then []
    else if user.value.role == ADMIN then [
      NavItem("/admin", "\U{1F3E0}", "Dashboard", "Home"),
      NavItem("/admin/users-list", "\U{1F465}", "Manage Users", "HR & Managers"),
      NavItem("/admin/reports", "\U{1F4CA}", "Reports", "Analytics"),
      NavItem("/admin/settings", "\U{2699}\U{FE0F}", "Settings", "System Config")]
    else if user.value.role == HR then [
      NavItem("/hr", "\U{1F3E0}", "Dashboard", "Home"),
      NavItem("/hr/employees", "\U{1F465}", "Employees", "Manage Staff"),
      NavItem("/hr/onboarding", "\U{1F195}", "Onboarding", "New Hires"),
      NavItem("/hr/reports", "\U{1F4CA}", "Reports", "HR Analytics")]
    else if user.value.role == MANAGER then [
      NavItem("/manager", "\U{1F3E0}", "Dashboard", "Home"),
      NavItem("/manager/team", "\U{1F465}", "My Team", "Team Members"),
      NavItem("/manager/projects", "\U{1F4CB}", "Projects", "Task Management"),
      NavItem("/manager/reports", "\U{1F4CA}", "Reports", "Team Analytics")]
    else if user.value.role == EMPLOYEE then [
      NavItem("/employee/leave-request", "\U{1F4DD}", "Leave Requests", "Apply & View")]
    else []
  }

  /** The role's own path prefix: every link of a role lies under it. */
  function RolePrefix(role: string): string {
    if role == ADMIN then "/admin"
    else if role == HR then "/hr"
    else if role == MANAGER then "/manager"
    else "/employee/leave-request"
  }

  /** Each role's links lie under its own prefix, and no path is listed
      twice. */
  lemma NavItemsShape(u: User)
    ensures forall i :: 0 <= i < |NavItems(Some(u))| ==> IsPrefix(RolePrefix(u.role), NavItems(Some(u))[i].path)
    ensures forall i, j :: 0 <= i < j < |NavItems(Some(u))| ==> NavItems(Some(u))[i].path != NavItems(Some(u))[j].path
  {
    NavItemsUnderPrefix(u);
    NavItemsDistinct(u);
  }

  lemma NavItemsUnderPrefix(u: User)
    ensures forall i :: 0 <= i < |NavItems(Some(u))| ==> IsPrefix(RolePrefix(u.role), NavItems(Some(u))[i].path)
  {
    var items := NavItems(Some(u));
    if u.role == ADMIN {
      UnderPrefix("/admin", items);
    } else if u.role == HR {
      UnderPrefix("/hr", items);
    } else if u.role == MANAGER {
      UnderPrefix("/manager", items);
    } else if u.role == EMPLOYEE {
      UnderPrefix("/employee/leave-request", items);
    }
  }

  lemma UnderPrefix(p: string, items: seq<NavItem>)
    requires forall i :: 0 <= i < |items| ==> |p| <= |items[i].path| && items[i].path[..|p|] == p
    ensures forall i :: 0 <= i < |items| ==> IsPrefix(p, items[i].path)
  {
  }

  /** Within each role's list the paths have distinct lengths. */
  lemma NavItemsDistinct(u: User)
    ensures forall i, j :: 0 <= i < j < |NavItems(Some(u))| ==> |NavItems(Some(u))[i].path| != |NavItems(Some(u))[j].path|
  {
  }

  /** Every link is written the way the route table writes its paths, so
      the router matches it by its own text. */
  lemma NavPathsCanonical(u: User)
    ensures forall i :: 0 <= i < |NavItems(Some(u))| ==> App.Canonical(NavItems(Some(u))[i].path)
  {
    App.AdminPathsCanonical();
    App.StaffPathsCanonical();
    App.EmployeePathsCanonical();
    ReportPathsCanonical();
  }

  /** The links the route table does not declare. */
  lemma ReportPathsCanonical()
    ensures App.Canonical("/admin/reports") && App.Canonical("/admin/settings")
    ensures App.Canonical("/hr/onboarding") && App.Canonical("/hr/reports")
    ensures App.Canonical("/manager/projects") && App.Canonical("/manager/reports")
  {
  }

  /** `isActive(path)`: the location's pathname is exactly the link's path. */
  predicate IsActive(pathname: string, item: NavItem) {
    pathname == item.path
  }

  /** At most one link is highlighted, whatever the location. */
  lemma AtMostOneActive(user: Option<User>, pathname: string, i: int, j: int)
    requires 0 <= i < |NavItems(user)| && 0 <= j < |NavItems(user)|
    requires IsActive(pathname, NavItems(user)[i]) && IsActive(pathname, NavItems(user)[j])
    ensures i == j
  {
    if user.Some? {
      NavItemsShape(user.value);
    }
  }

  /** `user?.name || user?.username || 'User'`. */
  function DisplayName(user: Option<User>): (r: string)
    ensures r != []
    ensures user.Some? && user.value.name != [] ==> r == user.value.name
    ensures user.Some? && user.value.name == [] && user.value.username != [] ==> r == user.value.username
    ensures user.None? || (user.value.name == [] && user.value.username == []) ==> r == "User"
  {
    match user
    case None => "User"
    case Some(u) => Or(u.name, Or(u.username, "User"))
  }

  /** `user?.role || 'User'`. */
  function DisplayRole(user: Option<User>): (r: string)
    ensures r != []
    ensures user.Some? && user.value.role != [] ==> r == user.value.role
    ensures user.None? || user.value.role == [] ==> r == "User"
  {
    match user
    case None => "User"
    case Some(u) => Or(u.role, "User")
  }

  /** Following any sidebar link never ends on the "Access Denied" page for
      a user past the first-login gate: links the routes declare are
      guarded by the user's own role, and the others fall back to the
      role's own dashboard. */
  lemma SidebarLinksAuthorized(u: User, store: seq<App.LeaveRequest>, i: int)
    requires !App.Gated(u)
    requires 0 <= i < |NavItems(Some(u))|
    ensures App.Resolve(u, NavItems(Some(u))[i].path, store).page != App.Unauthorized
  {
    var path := NavItems(Some(u))[i].path;
    NavPathsCanonical(u);
    App.CanonicalKey(path);
    NavLinksGuarded(u);
    assert App.RouteKey(path) == path;
    if path in App.Guards {
      App.RouteFollowsGuards(u, path, store);
      assert App.Route(u, path, store).value != App.Unauthorized;
      assert App.Resolve(u, path, store).page == App.Route(u, path, store).value;
    } else {
      App.FallbackLanding(u, path, store);
    }
  }

  /** A link the route table lists is guarded by the user's own role; the
      others belong to ADMIN, HR or MANAGER users. */
  lemma NavLinksGuarded(u: User)
    ensures forall i :: 0 <= i < |NavItems(Some(u))| && NavItems(Some(u))[i].path in App.Guards ==>
              u.role in App.Guards[NavItems(Some(u))[i].path]
    ensures forall i :: 0 <= i < |NavItems(Some(u))| && NavItems(Some(u))[i].path !in App.Guards ==>
              u.role in {ADMIN, HR, MANAGER}
  {
  }

}
