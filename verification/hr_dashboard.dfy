/** The HR dashboard: employee statistics, upcoming onboarding events and
    the employee table searched by name or email with a clamped pager. The
    add-employee wizard is shared with the manager dashboard (`Onboarding`). */
module HrDashboard {
  import opened Records
  import opened ListEngine
  import opened Search
  import opened ListView
  import Text

  const EmployeesPerPage: nat := 10

  /** Search on name or email, ten per page, no reset on search, pager with
      `Math.max`/`Math.min` shown only when there is more than one page. */
  const View: Config := Config(NameOrEmail, EmployeesPerPage, false, Clamped, false)

  predicate IsPending(e: Record) {
    e.status == "Pending"
  }

  /** The counters computed by `loadEmployees` (without `newThisMonth`). */
  datatype Stats = Stats(totalEmployees: nat, pendingProfiles: nat)

  function ComputeStats(data: seq<Record>): (s: Stats)
    ensures s.totalEmployees == |data|
    ensures s.pendingProfiles <= s.totalEmployees
    ensures s.pendingProfiles == 0 <==> forall e :: e in data ==> e.status != "Pending"
  {
    Stats(|data|, |Filter(data, IsPending)|)
  }

  /** One more fetched employee adds one to the total and one to the pending
      count exactly when its status is exactly "Pending". */
  lemma StatsOfOneMore(data: seq<Record>, e: Record)
    ensures ComputeStats(data + [e]).totalEmployees == ComputeStats(data).totalEmployees + 1
    ensures ComputeStats(data + [e]).pendingProfiles
         == ComputeStats(data).pendingProfiles + (if e.status == "Pending" then 1 else 0)
  {
    FilterAppend(data, [e], IsPending);
  }

  /** An entry of the upcoming-events card. */
  datatype UpcomingEvent = UpcomingEvent(kind: string, name: string, date: string)

  function OnboardingEvents(employees: seq<Record>): (r: seq<UpcomingEvent>)
    ensures |r| == |employees|
    ensures forall i :: 0 <= i < |r| ==>
      r[i] == UpcomingEvent("Onboarding", employees[i].name, employees[i].startDate)
  {
    if employees == [] then []
    else [UpcomingEvent("Onboarding", employees[0].name, employees[0].startDate)] + OnboardingEvents(employees[1..])
  }

  /** `employees.slice(0, 3).map(...)`: the first three employees, in order,
      as onboarding events. */
  function UpcomingEvents(employees: seq<Record>): (r: seq<UpcomingEvent>)
    ensures |r| == Min(3, |employees|)
    ensures forall i :: 0 <= i < |r| ==>
      r[i].kind == "Onboarding" && r[i].name == employees[i].name && r[i].date == employees[i].startDate
  {
    OnboardingEvents(Slice(employees, 0, 3))
  }

  /** Every row of the table is a fetched employee whose name or email
      contains the search text, ignoring case. */
  lemma RowsMatchNameOrEmail(employees: seq<Record>, s: State)
    ensures forall e :: e in Visible(View, employees, s) ==>
      && e in employees
      && ((e.name != [] && Text.Contains(Text.LowerStr(e.name), Text.LowerStr(s.search)))
          || (e.email != [] && Text.Contains(Text.LowerStr(e.email), Text.LowerStr(s.search))))
  {
    VisibleAreMatches(View, employees, s);
  }
}
