/** The manager dashboard: the team statistics and the employee table, which
    is searched and paged exactly like the HR dashboard's. The add-employee
    wizard is the one in `Onboarding`. */
module ManagerDashboard {
  import opened Records
  import opened ListView
  import Search

  const EmployeesPerPage: nat := 10

  /** Search on name or email, ten per page, no reset on search, `<`/`>`
      clamped and drawn only when there is more than one page. */
  const View: Config := Config(Search.NameOrEmail, EmployeesPerPage, false, Clamped, false)

  /** The four counters of the statistics cards. */
  datatype Stats = Stats(teamSize: nat, activeProjects: int, completedTasks: int, teamPerformance: int)

  const InitialStats: Stats := Stats(0, 0, 0, 0)

  /** `loadEmployees`: the team size becomes the number of fetched
      employees; the other three counters are copied from the `stats` value
      the callback closed over. */
  function Refresh(captured: Stats, fetched: nat): (r: Stats)
    ensures r.teamSize == fetched
    ensures r.activeProjects == captured.activeProjects
    ensures r.completedTasks == captured.completedTasks
    ensures r.teamPerformance == captured.teamPerformance
  {
    captured.(teamSize := fetched)
  }

  /** The stats after a series of loads of the given sizes, each copying
      the counters from the stats it closed over. */
  function Refreshes(s: Stats, sizes: seq<nat>): Stats
    decreases |sizes|
  {
    if sizes == [] then s else Refreshes(Refresh(s, sizes[0]), sizes[1..])
  }

  /** The three other counters are never set by anything but the copy, so
      they keep their values across any series of loads, and the team size
      is that of the latest load. */
  lemma {:induction false} RefreshesKeepCounters(s: Stats, sizes: seq<nat>)
    ensures var r := Refreshes(s, sizes);
      && r.activeProjects == s.activeProjects
      && r.completedTasks == s.completedTasks
      && r.teamPerformance == s.teamPerformance
      && r.teamSize == (if sizes == [] then s.teamSize else sizes[|sizes| - 1])
    decreases |sizes|
  {
    if sizes != [] {
      RefreshesKeepCounters(Refresh(s, sizes[0]), sizes[1..]);
      if |sizes| > 1 {
        assert sizes[1..][|sizes[1..]| - 1] == sizes[|sizes| - 1];
      }
    }
  }

  /** From the initial zeros, the dashboard only ever shows the size of the
      last load and zero for the other three counters. */
  lemma StatsAfterLoads(sizes: seq<nat>)
    requires sizes != []
    ensures Refreshes(InitialStats, sizes) == Stats(sizes[|sizes| - 1], 0, 0, 0)
  {
    RefreshesKeepCounters(InitialStats, sizes);
  }

  /** Going to page 2 of a long list and then searching for something that
      matches nothing leaves the table empty on "Page 2 of 1"; with no
      pager drawn, only another search brings it back. */
  lemma StrandedAfterSearch(employees: seq<Record>, q: string, e: Event)
    requires |Search.SearchRecords(employees, View.field, "")| > EmployeesPerPage
    requires Search.SearchRecords(employees, View.field, q) == []
    requires !e.Typed?
    ensures var s := Run(View, employees, Initial, [NextPage, Typed(q)]);
      && s.page == 2 && Total(View, employees, s) == 1
      && Visible(View, employees, s) == []
      && Step(View, employees, s, e) == s
  {
    StaleAfterSearch(View, employees, q);
    var s := Run(View, employees, Initial, [NextPage, Typed(q)]);
    ClampedHiddenPagerStrands(View, employees, s, e);
  }
}
