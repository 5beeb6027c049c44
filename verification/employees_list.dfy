/** The HRs & Managers list: staff records only, searched by name, twenty
    per page, with a button for every page. */
module EmployeesList {
  import opened Records
  import opened ListEngine
  import opened Search
  import opened ListView
  import opened PageStrip

  const EmployeesPerPage: nat := 20

  /** Search on `name`, twenty per page, page reset on search, pager
      through `handlePageChange`. */
  const View: Config := Config(Name, EmployeesPerPage, true, Guarded, false)

  predicate IsStaff(u: Record) {
    u.role == HR || u.role == MANAGER
  }

  /** `data.filter(u => u.role === 'HR' || u.role === 'MANAGER')`. */
  function StaffOnly(data: seq<Record>): (r: seq<Record>)
    ensures forall u :: u in r <==> u in data && (u.role == HR || u.role == MANAGER)
    ensures IsSubsequence(r, data)
    ensures forall u :: multiset(r)[u] == if u.role == HR || u.role == MANAGER then multiset(data)[u] else 0
  {
    Filter(data, IsStaff)
  }

  /** The "No HRs or Managers found." row replaces the table body. */
  predicate ShowsNoRowsMessage(users: seq<Record>, s: State) {
    Visible(View, users, s) == []
  }

  /** The strip: one button per page, in order. */
  function Strip(users: seq<Record>, s: State): seq<Control> {
    FullStrip(Total(View, users, s))
  }

  /** Whatever the user types or clicks, the page stays valid, the "no rows"
      message appears exactly when no name matches, and the strip holds a
      button for every page 1..totalPages, the current one included. */
  lemma ReachableEmployeesList(data: seq<Record>, events: seq<Event>)
    ensures var users := StaffOnly(data);
      var s := Run(View, users, Initial, events);
      && 1 <= s.page <= Total(View, users, s)
      && (ShowsNoRowsMessage(users, s) <==> Filtered(View, users, s) == [])
      && |Strip(users, s)| == Total(View, users, s)
      && Strip(users, s)[s.page - 1] == Button(s.page)
  {
    var users := StaffOnly(data);
    ResettingViewStaysInRange(View, users, events);
    VisibleEmptyIffNoMatch(View, users, Run(View, users, Initial, events));
  }

  /** Every listed row is an HR or manager record whose name matches. */
  lemma RowsAreMatchingStaff(data: seq<Record>, s: State)
    ensures forall u :: u in Visible(View, StaffOnly(data), s) ==>
      u in data && IsStaff(u) && Keep(u, Name, s.search)
  {
    VisibleAreMatches(View, StaffOnly(data), s);
  }
}
