/** The admin dashboard: the non-admin user list, its statistics, the
    Active/Disabled toggle, the create-user panel and the paged, searchable
    user table with the ellipsis page strip. */
module AdminDashboard {
  import opened Text
  import opened Records
  import opened ListEngine
  import opened Search
  import opened ListView
  import opened PageStrip

  const UsersPerPage: nat := 10

  /** Search on `username`, ten per page, page reset on search, pager
      through `handlePageChange`, numbered buttons from the ellipsis strip. */
  const View: Config := Config(Username, UsersPerPage, true, Guarded, true)

  predicate NotAdmin(u: Record) {
    u.role != ADMIN
  }

  /** `data.filter(u => u.role !== 'ADMIN')`. */
  function NonAdminUsers(data: seq<Record>): (r: seq<Record>)
    ensures forall u :: u in r <==> u in data && u.role != ADMIN
    ensures IsSubsequence(r, data)
    ensures forall u :: multiset(r)[u] == if u.role != ADMIN then multiset(data)[u] else 0
  {
    Filter(data, NotAdmin)
  }

  /** `u.status && u.status.toLowerCase() === 'active'`. */
  predicate IsActiveUser(u: Record) {
    Truthy(u.status) && LowerStr(u.status) == "active"
  }

  /** `u.status && u.status.toLowerCase() === 'disabled'`. */
  predicate IsDisabledUser(u: Record) {
    Truthy(u.status) && LowerStr(u.status) == "disabled"
  }

  predicate IsHrUser(u: Record) {
    u.role == HR
  }

  predicate IsManagerUser(u: Record) {
    u.role == MANAGER
  }

  /** The four counters of the statistics cards. */
  datatype Stats = Stats(totalUsers: nat, totalHR: nat, totalManagers: nat, disabledUsers: nat)

  /** The statistics `loadUsers` computes from the fetched users; ADMIN
      users are not counted anywhere. Active and disabled users, and HR and
      manager users, are disjoint groups of the non-admin users. */
  function ComputeStats(data: seq<Record>): (s: Stats)
    ensures s.totalUsers + s.disabledUsers <= |NonAdminUsers(data)|
    ensures s.totalHR + s.totalManagers <= |NonAdminUsers(data)|
  {
    var users := NonAdminUsers(data);
    FilterDisjointCounts(users, IsActiveUser, IsDisabledUser);
    FilterDisjointCounts(users, IsHrUser, IsManagerUser);
    Stats(
      |Filter(users, IsActiveUser)|,
      |Filter(users, IsHrUser)|,
      |Filter(users, IsManagerUser)|,
      |Filter(users, IsDisabledUser)|)
  }

  /** Each fetched user adds to exactly the counters it qualifies for, and an
      ADMIN user adds to none. */
  lemma StatsOfOneMore(data: seq<Record>, u: Record)
    ensures var before, after := ComputeStats(data), ComputeStats(data + [u]);
      && after.totalUsers == before.totalUsers + (if NotAdmin(u) && IsActiveUser(u) then 1 else 0)
      && after.disabledUsers == before.disabledUsers + (if NotAdmin(u) && IsDisabledUser(u) then 1 else 0)
      && after.totalHR == before.totalHR + (if IsHrUser(u) then 1 else 0)
      && after.totalManagers == before.totalManagers + (if IsManagerUser(u) then 1 else 0)
  {
    var users := NonAdminUsers(data);
    FilterAppend(data, [u], NotAdmin);
    var added := Filter([u], NotAdmin);
    assert added == if NotAdmin(u) then [u] else [];
    FilterAppend(users, added, IsActiveUser);
    FilterAppend(users, added, IsDisabledUser);
    FilterAppend(users, added, IsHrUser);
    FilterAppend(users, added, IsManagerUser);
  }

  /** `currentStatus === 'Active' ? 'Disabled' : 'Active'`: the status the
      toggle sends. The row shows a Disable button exactly for 'Active'. */
  function ToggledStatus(current: string): (r: string)
    ensures r == "Active" || r == "Disabled"
    ensures r != current
    ensures r == "Disabled" <==> current == "Active"
  {
    if current == "Active" then "Disabled" else "Active"
  }

  /** On the two statuses the toggle produces, toggling twice restores the
      status. */
  lemma ToggleTwice(current: string)
    requires current == "Active" || current == "Disabled"
    ensures ToggledStatus(ToggledStatus(current)) == current
  {
  }

  /** The create-user form; its role select starts on HR. */
  datatype CreateForm = CreateForm(username: string, password: string, role: string)

  const BlankCreateForm: CreateForm := CreateForm("", "", HR)

  /** The create-user panel: the form, whether the modal is shown, and the
      message banner. */
  datatype CreatePanel = CreatePanel(form: CreateForm, shown: bool, msg: string)

  /** `handleCreate` once `API.post` has resolved (`created`) or thrown. */
  function AfterCreate(p: CreatePanel, created: bool): (r: CreatePanel)
    ensures created ==> r.form == BlankCreateForm && !r.shown
    ensures created ==> r.msg == "User \"" + p.form.username + "\" created successfully!"
    ensures !created ==> r.form == p.form && r.shown == p.shown && r.msg == "Error creating user"
  {
    if created then
      CreatePanel(BlankCreateForm, false, "User \"" + p.form.username + "\" created successfully!")
    else
      p.(msg := "Error creating user")
  }

  /** What the admin can do with the create-user panel: open it from Quick
      Actions, close it (its × or Cancel), type in the two inputs, pick one
      of the two options of the role select, click Create User once
      `API.post` has settled, or close the message banner. */
  datatype PanelEvent =
    | OpenPanel
    | ClosePanel
    | TypeUsername(v: string)
    | TypePassword(v: string)
    | PickRole(manager: bool)
    | CreateUser(created: bool)
    | DismissMsg

  /** The panel's controls exist only while it is shown; the message banner
      and the Quick Actions button are always there. */
  function PanelStep(p: CreatePanel, e: PanelEvent): (r: CreatePanel)
    ensures e.OpenPanel? ==> r == p.(shown := true)
    ensures e.ClosePanel? ==> r == p.(shown := false)
    ensures e.DismissMsg? ==> r == p.(msg := "")
    ensures !p.shown && !e.OpenPanel? && !e.DismissMsg? ==> r == p
    ensures p.shown && e.CreateUser? ==> r == AfterCreate(p, e.created)
    ensures p.shown && e.TypeUsername? ==> r == p.(form := p.form.(username := e.v))
    ensures p.shown && e.TypePassword? ==> r == p.(form := p.form.(password := e.v))
    ensures p.shown && e.PickRole? ==> r.form.role == (if e.manager then MANAGER else HR)
  {
    match e
    case OpenPanel => p.(shown := true)
    case ClosePanel => p.(shown := false)
    case DismissMsg => p.(msg := "")
    case TypeUsername(v) => if p.shown then p.(form := p.form.(username := v)) else p
    case TypePassword(v) => if p.shown then p.(form := p.form.(password := v)) else p
    case PickRole(manager) => if p.shown then p.(form := p.form.(role := if manager then MANAGER else HR)) else p
    case CreateUser(created) => if p.shown then AfterCreate(p, created) else p
  }

  function PanelRun(p: CreatePanel, events: seq<PanelEvent>): CreatePanel
    decreases |events|
  {
    if events == [] then p else PanelRun(PanelStep(p, events[0]), events[1..])
  }

  /** The role sent to `/create` is always one the select offers. */
  lemma {:induction false} RoleAlwaysOffered(p: CreatePanel, events: seq<PanelEvent>)
    requires p.form.role == HR || p.form.role == MANAGER
    ensures PanelRun(p, events).form.role == HR || PanelRun(p, events).form.role == MANAGER
    decreases |events|
  {
    if events != [] {
      RoleAlwaysOffered(PanelStep(p, events[0]), events[1..]);
    }
  }

  /** After a user is created, opening the panel again shows the blank form,
      and the success message stays until it is dismissed. */
  lemma CreateThenReopen(p: CreatePanel)
    requires p.shown
    ensures var q := PanelRun(p, [CreateUser(true), OpenPanel]);
      && q.form == BlankCreateForm && q.shown
      && q.msg == "User \"" + p.form.username + "\" created successfully!"
  {
    assert PanelRun(p, [CreateUser(true), OpenPanel]) == PanelStep(PanelStep(p, CreateUser(true)), OpenPanel);
  }

  /** A failed create leaves the panel open with what was typed; closing and
      reopening the panel does not clear it either. */
  lemma FailureAndCloseKeepForm(p: CreatePanel)
    requires p.shown
    ensures PanelStep(p, CreateUser(false)) == p.(msg := "Error creating user")
    ensures PanelRun(p, [ClosePanel, OpenPanel]) == p
  {
    assert PanelRun(p, [ClosePanel, OpenPanel]) == PanelStep(PanelStep(p, ClosePanel), OpenPanel);
  }

  /** The strip under the user table. */
  function Strip(users: seq<Record>, s: State): seq<Control>
  {
    Window(s.page, Total(View, users, s))
  }

  /** A page button moves the view exactly when the strip draws a button
      for a page other than the current one: clicking a page the strip
      hides is impossible and changes nothing. */
  lemma GoToDrawnButtons(users: seq<Record>, s: State, k: int)
    ensures Step(View, users, s, GoTo(k)).page != s.page ==> Button(k) in Strip(users, s)
    ensures Button(k) in Strip(users, s) ==> Step(View, users, s, GoTo(k)).page == k
  {
    var total := Total(View, users, s);
    WindowRule(s.page, total);
    if Button(k) in Strip(users, s) {
      assert 1 <= k <= total && IsButton(k, s.page, total);
    }
  }

  /** Whatever the admin types or clicks, the current page stays valid, so
      the strip always shows it as a button, and the table is empty only
      when no username matches. */
  lemma ReachableAdminView(users: seq<Record>, events: seq<Event>)
    ensures var s := Run(View, users, Initial, events);
      && 1 <= s.page <= Total(View, users, s)
      && Button(s.page) in Strip(users, s)
      && (Visible(View, users, s) == [] <==> Filtered(View, users, s) == [])
  {
    var s := Run(View, users, Initial, events);
    ResettingViewStaysInRange(View, users, events);
    WindowKeepsAnchors(s.page, Total(View, users, s));
    VisibleEmptyIffNoMatch(View, users, s);
  }

  /** Every row of the table shows the user's username: the search drops
      users without one, so `user.username || user.name` never falls back. */
  lemma RowsShowUsername(users: seq<Record>, s: State)
    ensures forall u :: u in Visible(View, users, s) ==> Or(u.username, u.name) == u.username
  {
    VisibleAreMatches(View, users, s);
  }
}
