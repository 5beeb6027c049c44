/** The application shell: the signed-in user, the login and first-login
    gates, the role-guarded route table with its fallback redirect, and the
    in-memory store of leave requests. */
module App {
  import opened Text
  import opened Records
  import opened ListEngine
  import opened LeaveRequestForm

  /** A stored leave request: the form's four fields plus the username of
      the employee who sent it. */
  datatype LeaveRequest = LeaveRequest(leaveType: string, startDate: string, endDate: string, reason: string, username: string)

  /** What a route renders. */
  datatype Page =
    | AdminDashboardPage
    | EmployeesListPage
    | HrDashboardPage
    | ManagerDashboardPage
    | EmployeeFormPage
    | LeavePage(requests: seq<LeaveRequest>)
    | Unauthorized

  /** The application's state: `user` (null before login) and
      `leaveRequests`. */
  datatype AppState = AppState(user: Option<User>, store: seq<LeaveRequest>)

  const InitialApp: AppState := AppState(None, [])

  /** `handleNewLeaveRequest`: the request with `username` set to the
      signed-in user's. */
  function Stamp(form: LeaveForm, u: User): (r: LeaveRequest)
    ensures r.username == u.username
    ensures r.leaveType == form.leaveType && r.startDate == form.startDate
    ensures r.endDate == form.endDate && r.reason == form.reason
  {
    LeaveRequest(form.leaveType, form.startDate, form.endDate, form.reason, u.username)
  }

  /** `[...leaveRequests, { ...request, username: user.username }]`. */
  function AddLeaveRequest(store: seq<LeaveRequest>, u: User, form: LeaveForm): (r: seq<LeaveRequest>)
    ensures |r| == |store| + 1
    ensures r[..|store|] == store
    ensures r[|store|] == Stamp(form, u)
  {
    store + [Stamp(form, u)]
  }

  function ByUser(name: string): LeaveRequest -> bool {
    (r: LeaveRequest) => r.username == name
  }

  /** `leaveRequests.filter(r => r.username === user.username)`. */
  function RequestsOf(store: seq<LeaveRequest>, name: string): (r: seq<LeaveRequest>)
    ensures forall x :: x in r <==> x in store && x.username == name
    ensures IsSubsequence(r, store)
    ensures forall x :: multiset(r)[x] == if x.username == name then multiset(store)[x] else 0
  {
    Filter(store, ByUser(name))
  }

  /** After u sends a request, u's list is the old list plus that request,
      and every other user's list is unchanged. */
  lemma AddLeaveRequestViews(store: seq<LeaveRequest>, u: User, form: LeaveForm, other: string)
    requires other != u.username
    ensures RequestsOf(AddLeaveRequest(store, u, form), u.username) == RequestsOf(store, u.username) + [Stamp(form, u)]
    ensures RequestsOf(AddLeaveRequest(store, u, form), other) == RequestsOf(store, other)
  {
    var x := Stamp(form, u);
    assert ByUser(u.username)(x) && !ByUser(other)(x);
    FilterSnoc(store, x, ByUser(u.username));
    FilterSnoc(store, x, ByUser(other));
  }

  /** The guard of every declared route: the roles it renders its page for. */
  const Guards: map<string, set<string>> := map[
    "/admin" := {ADMIN},
    "/admin/users" := {ADMIN},
    "/admin/users-list" := {ADMIN},
    "/hr" := {HR},
    "/hr/employees" := {HR},
    "/manager" := {MANAGER},
    "/manager/team" := {MANAGER},
    "/employee" := {HR, MANAGER},
    "/employee/leave-request" := {EMPLOYEE}
  ]

  /** The location with every trailing '/' dropped. */
  function TrimSlashes(p: string): (r: string)
    ensures |r| <= |p| && r == p[..|r|]
    ensures r == [] || r[|r| - 1] != '/'
    ensures forall i :: |r| <= i < |p| ==> p[i] == '/'
    decreases |p|
  {
    if p != [] && p[|p| - 1] == '/' then TrimSlashes(p[..|p| - 1]) else p
  }

  /** What React Router compares with a route's `path`. None of the routes
      sets `caseSensitive`, so the match ignores case, and the pattern it
      builds accepts any number of trailing slashes. */
  function RouteKey(path: string): string {
    TrimSlashes(LowerStr(path))
  }

  /** A path written the way the route table writes its paths: no capital
      letter and no trailing slash. */
  predicate Canonical(p: string) {
    (forall i :: 0 <= i < |p| ==> !IsUpper(p[i])) && (p == [] || p[|p| - 1] != '/')
  }

  /** A canonical path is its own key, and a key is canonical. */
  lemma CanonicalKey(p: string)
    ensures Canonical(p) ==> RouteKey(p) == p
    ensures Canonical(RouteKey(p))
  {
    if Canonical(p) {
      assert LowerStr(p) == p;
    }
    var l := LowerStr(p);
    var k := TrimSlashes(l);
    forall i | 0 <= i < |k|
      ensures !IsUpper(k[i])
    {
      assert k[i] == l[i];
    }
  }

  /** The key forgets the case of the path and a trailing slash. */
  lemma RouteKeyVariants(p: string)
    ensures RouteKey(p + "/") == RouteKey(p)
    ensures RouteKey(LowerStr(p)) == RouteKey(p)
  {
    LowerStrAppend(p, "/");
    assert LowerStr("/") == "/";
    var l := LowerStr(p) + "/";
    assert l[..|l| - 1] == LowerStr(p);
    LowerStrIdempotent(p);
  }

  /** Every path in the route table is canonical, so each one is matched by
      its own text. */
  lemma GuardsCanonical()
    ensures forall p :: p in Guards ==> Canonical(p)
  {
    AdminPathsCanonical();
    StaffPathsCanonical();
    EmployeePathsCanonical();
  }

  lemma AdminPathsCanonical()
    ensures Canonical("/admin") && Canonical("/admin/users") && Canonical("/admin/users-list")
  {
  }

  lemma StaffPathsCanonical()
    ensures Canonical("/hr") && Canonical("/hr/employees")
    ensures Canonical("/manager") && Canonical("/manager/team")
  {
  }

  lemma EmployeePathsCanonical()
    ensures Canonical("/employee") && Canonical("/employee/leave-request")
  {
  }

  /** The `<Routes>` block on a route key: the page the route with that
      path renders for u, or None when no declared route has it. */
  function RouteOf(u: User, key: string, store: seq<LeaveRequest>): Option<Page> {
    if key == "/admin" || key == "/admin/users" then
      Some(if u.role == ADMIN then AdminDashboardPage else Unauthorized)
    else if key == "/admin/users-list" then
      Some(if u.role == ADMIN then EmployeesListPage else Unauthorized)
    else if key == "/hr" || key == "/hr/employees" then
      Some(if u.role == HR then HrDashboardPage else Unauthorized)
    else if key == "/manager" || key == "/manager/team" then
      Some(if u.role == MANAGER then ManagerDashboardPage else Unauthorized)
    else if key == "/employee" then
      Some(if u.role == HR || u.role == MANAGER then EmployeeFormPage else Unauthorized)
    else if key == "/employee/leave-request" then
      Some(if u.role == EMPLOYEE then LeavePage(RequestsOf(store, u.username)) else Unauthorized)
    else None
  }

  /** The page the route matching the location renders, if any. */
  function Route(u: User, path: string, store: seq<LeaveRequest>): Option<Page> {
    RouteOf(u, RouteKey(path), store)
  }

  lemma RouteOfFollowsGuards(u: User, key: string, store: seq<LeaveRequest>)
    ensures RouteOf(u, key, store).Some? <==> key in Guards
    ensures key in Guards ==> (RouteOf(u, key, store).value != Unauthorized <==> u.role in Guards[key])
  {
  }

  /** The route block agrees with the guard table: a location matches a
      route exactly when the table lists its key, and that route renders its
      page, not "Access Denied", exactly for the roles the table names. */
  lemma RouteFollowsGuards(u: User, path: string, store: seq<LeaveRequest>)
    ensures Route(u, path, store).Some? <==> RouteKey(path) in Guards
    ensures RouteKey(path) in Guards ==> (Route(u, path, store).value != Unauthorized <==> u.role in Guards[RouteKey(path)])
  {
    RouteOfFollowsGuards(u, RouteKey(path), store);
  }

  /** The catch-all route's `<Navigate>` target. */
  function HomePath(role: string): (p: string)
    ensures p in Guards && RouteKey(p) == p
    ensures role == ADMIN ==> p == "/admin"
    ensures role == HR ==> p == "/hr"
    ensures role != ADMIN && role != HR ==> p == "/manager"
  {
    GuardsCanonical();
    var p := if role == ADMIN then "/admin" else if role == HR then "/hr" else "/manager";
    CanonicalKey(p);
    p
  }

  /** The path shown and the page rendered. */
  datatype Routed = Routed(path: string, page: Page)

  /** A location some route matches renders that route; any other location
      redirects to the role's home path and renders that route. */
  function Resolve(u: User, path: string, store: seq<LeaveRequest>): (r: Routed)
    ensures RouteKey(path) in Guards ==> r.path == path
    ensures RouteKey(path) !in Guards ==> r.path == HomePath(u.role)
    ensures Route(u, r.path, store) == Some(r.page)
  {
    RouteFollowsGuards(u, path, store);
    RouteFollowsGuards(u, HomePath(u.role), store);
    match Route(u, path, store)
    case Some(page) => Routed(path, page)
    case None => Routed(HomePath(u.role), Route(u, HomePath(u.role), store).value)
  }

  /** A location renders the same page as its lower-cased form and as
      itself with a trailing slash. */
  lemma ResolveIgnoresCaseAndSlash(u: User, path: string, store: seq<LeaveRequest>)
    ensures Resolve(u, path + "/", store).page == Resolve(u, path, store).page
    ensures Resolve(u, LowerStr(path), store).page == Resolve(u, path, store).page
  {
    RouteKeyVariants(path);
    assert Route(u, path + "/", store) == Route(u, path, store);
    assert Route(u, LowerStr(path), store) == Route(u, path, store);
  }

  /** A location no route matches takes an ADMIN, HR or MANAGER user to
      their own dashboard; anyone else lands on `/manager` and is refused. */
  lemma FallbackLanding(u: User, path: string, store: seq<LeaveRequest>)
    requires RouteKey(path) !in Guards
    ensures u.role == ADMIN ==> Resolve(u, path, store).page == AdminDashboardPage
    ensures u.role == HR ==> Resolve(u, path, store).page == HrDashboardPage
    ensures u.role == MANAGER ==> Resolve(u, path, store).page == ManagerDashboardPage
    ensures u.role !in {ADMIN, HR, MANAGER} ==> Resolve(u, path, store).page == Unauthorized
  {
    var r := Resolve(u, path, store);
    assert r.path == HomePath(u.role);
    HomeRoute(u, store);
  }

  /** The page each role's home path renders. */
  lemma HomeRoute(u: User, store: seq<LeaveRequest>)
    ensures Route(u, HomePath(u.role), store) == Some(
      if u.role == ADMIN then AdminDashboardPage
      else if u.role == HR then HrDashboardPage
      else if u.role == MANAGER then ManagerDashboardPage
      else Unauthorized)
  {
    var home := HomePath(u.role);
    assert Route(u, home, store) == RouteOf(u, home, store);
    if u.role == ADMIN {
      assert RouteOf(u, "/admin", store) == Some(AdminDashboardPage);
    } else if u.role == HR {
      assert RouteOf(u, "/hr", store) == Some(HrDashboardPage);
    } else {
      assert home == "/manager";
      assert RouteOf(u, "/manager", store) == Some(if u.role == MANAGER then ManagerDashboardPage else Unauthorized);
    }
  }

  /** What the application draws. */
  datatype Screen = LoginScreen | ResetPasswordScreen(username: string) | RoutedScreen(routed: Routed)

  /** A non-ADMIN user on their first login is held on the reset page. */
  predicate Gated(u: User) {
    u.firstLogin && u.role != ADMIN
  }

  function Render(st: AppState, path: string): (s: Screen)
    ensures st.user.None? <==> s.LoginScreen?
    ensures st.user.Some? && Gated(st.user.value) <==> s.ResetPasswordScreen?
    ensures s.RoutedScreen? ==> s.routed == Resolve(st.user.value, path, st.store)
  {
    match st.user
    case None => LoginScreen
    case Some(u) =>
      if Gated(u) then ResetPasswordScreen(u.username)
      else RoutedScreen(Resolve(u, path, st.store))
  }

  /** What the user can do at the application level: sign in from the login
      page, sign out (the layout's button or a completed password reset),
      or send a leave request from the leave page. */
  datatype AppEvent = LogIn(who: User) | LogOut | SendLeave(form: LeaveForm)

  /** Each event has its effect only where its control is drawn: the login
      page without a user, the leave page for a signed-in EMPLOYEE past the
      first-login gate. */
  function AppStep(st: AppState, e: AppEvent): (r: AppState)
    ensures e.LogOut? ==> r == st.(user := None)
    ensures e.LogIn? && st.user.None? ==> r == st.(user := Some(e.who))
    ensures r.store == st.store || (e.SendLeave? && st.user.Some? && |r.store| == |st.store| + 1)
    ensures r.store[..|st.store|] == st.store
  {
    match e
    case LogIn(u) => if st.user.None? then st.(user := Some(u)) else st
    case LogOut => st.(user := None)
    case SendLeave(form) =>
      match st.user
      case Some(u) =>
        if u.role == EMPLOYEE && !Gated(u) then st.(store := AddLeaveRequest(st.store, u, form)) else st
      case None => st
  }

  function AppRun(st: AppState, events: seq<AppEvent>): AppState
    decreases |events|
  {
    if events == [] then st else AppRun(AppStep(st, events[0]), events[1..])
  }

  /** Requests are only ever appended: signing out and back in loses none
      and reorders none, and every stored request carries the username of
      an EMPLOYEE who was signed in when it was sent. */
  lemma {:induction false} StoreOnlyGrows(st: AppState, events: seq<AppEvent>)
    ensures |AppRun(st, events).store| >= |st.store|
    ensures AppRun(st, events).store[..|st.store|] == st.store
    decreases |events|
  {
    if events != [] {
      var next := AppStep(st, events[0]);
      StoreOnlyGrows(next, events[1..]);
      var fin := AppRun(next, events[1..]).store;
      assert fin[..|st.store|] == fin[..|next.store|][..|st.store|];
    }
  }

  /** Each request in the store was sent by a signed-in EMPLOYEE under
      their own username. */
  lemma {:induction false} StoredRequestsBelongToEmployees(st: AppState, events: seq<AppEvent>, who: set<string>)
    requires forall r :: r in st.store ==> r.username in who
    requires forall e :: e in events && e.LogIn? && e.who.role == EMPLOYEE ==> e.who.username in who
    requires st.user.Some? && st.user.value.role == EMPLOYEE ==> st.user.value.username in who
    ensures forall r :: r in AppRun(st, events).store ==> r.username in who
    decreases |events|
  {
    if events != [] {
      var next := AppStep(st, events[0]);
      assert forall e :: e in events[1..] ==> e in events;
      assert events[0] in events;
      StoredRequestsBelongToEmployees(next, events[1..], who);
    }
  }

  /** On any location matching `/employee/leave-request`, an employee sees
      the leave page with exactly their own requests. */
  lemma LeavePageShowsOwnRequests(u: User, store: seq<LeaveRequest>, path: string)
    requires u.role == EMPLOYEE && !u.firstLogin
    requires RouteKey(path) == "/employee/leave-request"
    ensures Render(AppState(Some(u), store), path)
         == RoutedScreen(Routed(path, LeavePage(RequestsOf(store, u.username))))
  {
    var page := LeavePage(RequestsOf(store, u.username));
    assert RouteOf(u, "/employee/leave-request", store) == Some(page);
    assert Route(u, path, store) == Some(page);
    assert Resolve(u, path, store) == Routed(path, page);
  }

  /** Sending a request from the leave page appends it to the sender's own
      list. */
  lemma SendLeaveAppendsOwn(u: User, store: seq<LeaveRequest>, form: LeaveForm)
    requires u.role == EMPLOYEE && !u.firstLogin
    ensures var after := AppStep(AppState(Some(u), store), SendLeave(form));
      RequestsOf(after.store, u.username) == RequestsOf(store, u.username) + [Stamp(form, u)]
  {
    var x := Stamp(form, u);
    assert AppStep(AppState(Some(u), store), SendLeave(form)).store == store + [x];
    assert ByUser(u.username)(x);
    FilterSnoc(store, x, ByUser(u.username));
  }
}
