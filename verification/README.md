# PayFlow front end — a Dafny model

PayFlow's React front end has four list views: the admin dashboard's user
table, the "HRs & Managers" list, and the employee tables of the HR and
manager dashboards. Each one searches a fetched list case-insensitively on
one field (or on name-or-email), cuts it into pages and moves between pages
with its own pager. Around that core sit:

- the admin statistics, the Active/Disabled toggle and the create-user panel;
- the two-step add-employee wizard with its list of past experiences, shared
  by the HR and manager dashboards;
- the application shell: the login and first-login gates, the role-guarded
  route table with its fallback redirect, and the in-memory store of leave
  requests;
- the sidebar's role → navigation-links table;
- two flat forms: the leave request form and the employee onboarding form.

The model is purely functional. Every fetched record is a `Records.Record`,
where a field the backend omits is the empty string; JavaScript treats both
as falsy, and no comparison in the views tells them apart. One generic
`ListEngine.Filter` and the paging functions serve all four views.
`ListView` is a state machine over the search text and the page. A `Config`
picks the search field, the page size, whether typing resets the page to 1,
whether the pager uses the guarded `handlePageChange` or
`Math.max`/`Math.min` clamping, and whether the numbered buttons are only
those of the admin view's ellipsis strip. Each dashboard module fixes its
`Config` and proves what its own view guarantees. User actions are events.
An event on a control the view does not draw changes nothing. Examples are
a hidden pager, a page number the ellipsis strip hides, a wizard step that
is not shown, a closed create-user panel, and a remove button on the last
remaining experience. Backend responses are an abstract `Outcome`: `Ok`, `NotOk` or
`NetworkError`.

In three places the model follows the code where a reader might expect otherwise:

- The page is never clamped into `1..totalPages`. In the HR and manager
  views typing does not reset the page, so after a narrowing search the view
  can sit on a page past the end and show an empty table
  (`ListView.StaleAfterSearch`, `ManagerDashboard.StrandedAfterSearch`). A
  requested page outside the range is ignored by `handlePageChange`, not
  clamped to the nearest valid page.
- The admin strip's ellipsis can stand in for a single page. With four
  pages and page 1 current the strip is `[1, 2, …, 4]`, not `[1, 2, 3, 4]`
  (`PageStrip.WindowExampleFourPages`).
- A record whose search field is empty is dropped even for an empty query,
  because the empty string is falsy (`Search.EmptyQuery`).

Lower-casing is ASCII only (`A`–`Z` to `a`–`z`, every other character
unchanged).

Routes are matched the way React Router v6 matches a `<Route path>` without
`caseSensitive`: the location is compared with the route's path ignoring
case and any trailing slashes (`App.RouteKey`). So `/Admin` reaches the
admin route (and "Access Denied" for a non-ADMIN user), and
`/employee/leave-request/` reaches the leave page. The sidebar's
highlighting, in contrast, compares `pathname` with the link's path
exactly.

## Model

| member | source | states |
|---|---|---|
| `Text.Or` | payflow-ui-group-4/src/components/Sidebar.js:57-58 | `a \|\| b` on strings: `a` when it is non-empty, otherwise `b` |
| `Text.LowerStr` | payflow-ui-group-4/src/components/AdminDashboard.js:82 | lower-casing keeps the length and lower-cases each character on its own; upper-case ASCII letters move by 32, and every other character is unchanged |
| `Text.ContainsIffOccurs` | payflow-ui-group-4/src/components/AdminDashboard.js:82 | the recursive `includes` holds exactly when the needle occurs at some position of the string |
| `Text.MatchesEmptyQuery` | payflow-ui-group-4/src/components/AdminDashboard.js:82 | with an empty query a field matches exactly when it is non-empty |
| `Text.MatchesIgnoresCase` | payflow-ui-group-4/src/components/HRDashboard.js:83-84 | matching gives the same answer whether the query or the field is lower-cased first or not |
| `Text.MatchesNarrowing` | payflow-ui-group-4/src/components/EmployeesList.js:28-30 | a field that matches a longer query also matches each of its prefixes |
| `ListEngine.Filter` | payflow-ui-group-4/src/components/EmployeesList.js:20 | `Array.filter`: an element is in the result iff it is in the input and kept; each kept element keeps its multiplicity; the result is a subsequence of the input, so the order is kept |
| `ListEngine.FilterAppend` | payflow-ui-group-4/src/components/EmployeesList.js:20 | filtering a concatenation gives the concatenation of the two filtered parts |
| `ListEngine.FilterSnoc` | payflow-ui-group-4/src/App.js:102 | filtering a list with one element added at the end adds that element at the end exactly when it is kept |
| `ListEngine.TotalPages` | payflow-ui-group-4/src/components/AdminDashboard.js:86 | the page count is at least 1 and is 1 for an empty list; for n > 0 rows, t−1 pages hold fewer than n rows and t pages hold all of them |
| `ListEngine.TotalPagesIsLeast` | payflow-ui-group-4/src/components/EmployeesList.js:33 | no number of pages smaller than the page count holds all the rows |
| `ListEngine.MoreThanOnePage` | payflow-ui-group-4/src/components/HRDashboard.js:184 | there is more than one page exactly when there are more rows than fit on one page |
| `ListEngine.Slice` | payflow-ui-group-4/src/components/AdminDashboard.js:87 | JavaScript `slice` with non-negative bounds: the length is `max(0, min(end, n) − start)`, and element i is `xs[start + i]` |
| `ListEngine.PageSlice` | payflow-ui-group-4/src/components/HRDashboard.js:88 | a page holds at most `size` rows, starting at `(page − 1) * size`. Every page before the last is full, and a valid page of a non-empty list is non-empty. A page past the last gives the empty list (no clamping) |
| `ListEngine.PageSliceRange` | payflow-ui-group-4/src/components/AdminDashboard.js:87 | a page that starts inside the list is the range from `(page − 1) * size` up to `page * size` cut off at the end; a page that starts past the end is empty |
| `ListEngine.PagingExample` | payflow-ui-group-4/src/components/AdminDashboard.js:86-87 | 25 rows at 10 per page give 3 pages; page 1 holds 10 rows and page 3 the last 5 |
| `ListEngine.PagesPartition` | payflow-ui-group-4/src/components/AdminDashboard.js:87 | pages 1..totalPages laid end to end give back the filtered list exactly: every row on one page, no row on two, order kept |
| `ListEngine.PageOfIndex` | payflow-ui-group-4/src/components/EmployeesList.js:33-34 | row i of the filtered list is at position `i % size` of page `i / size + 1`, which is a valid page |
| `ListEngine.GuardedPageChange` | payflow-ui-group-4/src/components/AdminDashboard.js:89-93 | `handlePageChange(k)` moves to k when `1 <= k <= totalPages` and otherwise leaves the page alone |
| `ListEngine.ClampedPrev` | payflow-ui-group-4/src/components/HRDashboard.js:186 | Previous goes back one page, but never below 1 |
| `ListEngine.ClampedNext` | payflow-ui-group-4/src/components/HRDashboard.js:188 | Next goes forward one page, never past totalPages, and brings a page past the end back to the last page |
| `ListEngine.GuardedKeepsRange` | payflow-ui-group-4/src/components/EmployeesList.js:36-40 | from a valid page the guarded setter always gives a valid page. It changes the page exactly when asked for a different valid page |
| `ListEngine.ClampedKeepsRange` | payflow-ui-group-4/src/components/ManagerDashboard.js:198-200 | the clamped buttons keep a valid page valid and pull a page past the end back to the last page |
| `Search.SearchRecords` | payflow-ui-group-4/src/components/AdminDashboard.js:81-83 | a record is kept iff its search field (username, name, or name-or-email) is non-empty and contains the query, ignoring case; order and multiplicity are kept |
| `Search.EmptyQuery` | payflow-ui-group-4/src/components/AdminDashboard.js:81-83 | an empty query keeps exactly the records whose search field is non-empty, so when every record has that field it returns the whole list |
| `Search.SearchIdempotent` | payflow-ui-group-4/src/components/HRDashboard.js:82-85 | searching the result again for the same text changes nothing |
| `Search.SearchNarrowing` | payflow-ui-group-4/src/components/ManagerDashboard.js:97-100 | two searches give the same result as one search for the longer text: first the shorter text, then the longer one that extends it |
| `Search.SearchIgnoresCase` | payflow-ui-group-4/src/components/EmployeesList.js:28-30 | a query and its lower-cased form select the same records |
| `Search.UsernameSearchExample` | payflow-ui-group-4/src/components/AdminDashboard.js:81-83 | searching `alice`, `bob`, `ALICE2` by username for `ali` gives `alice`, `ALICE2` in that order |
| `PageStrip.WindowRule` | payflow-ui-group-4/src/components/AdminDashboard.js:264-287 | the admin strip is in strictly increasing page order and draws only pages 1..totalPages. Page k is a button iff k = 1, k = totalPages or \|page − k\| ≤ 1. Otherwise it is an ellipsis iff (k = 2 and page > 3) or (k = totalPages − 1 and page < totalPages − 2) |
| `PageStrip.WindowKeepsAnchors` | payflow-ui-group-4/src/components/AdminDashboard.js:266-270 | page 1, the last page and the current page (when valid) are always buttons |
| `PageStrip.WindowWellFormed` | payflow-ui-group-4/src/components/AdminDashboard.js:266-286 | no page is both a button and an ellipsis, and nothing outside 1..totalPages is drawn |
| `PageStrip.AtMostTwoEllipses` | payflow-ui-group-4/src/components/AdminDashboard.js:280-284 | the strip holds at most two ellipses |
| `PageStrip.HiddenPagesMarked` | payflow-ui-group-4/src/components/AdminDashboard.js:280-286 | on whichever side of the current page a page is hidden, that side carries an ellipsis |
| `PageStrip.WindowExampleTenPages` | payflow-ui-group-4/src/components/AdminDashboard.js:264-287 | ten pages with page 6 current give `[1, …, 5, 6, 7, …, 10]` |
| `PageStrip.WindowExampleFourPages` | payflow-ui-group-4/src/components/AdminDashboard.js:280-284 | four pages with page 1 current give `[1, 2, …, 4]`: the ellipsis stands for page 3 alone |
| `PageStrip.FullStrip` | payflow-ui-group-4/src/components/EmployeesList.js:98-116 | the employees-list strip has one entry per page, and entry i is the button for page i + 1 |
| `PageStrip.SmallWindowIsFull` | payflow-ui-group-4/src/components/AdminDashboard.js:264-270 | with at most three pages the admin strip equals the full strip |
| `PageStrip.DisabledIffNoEffect` | payflow-ui-group-4/src/components/AdminDashboard.js:254-297 | on a valid page, « and ‹ are disabled exactly when their click would not change the page. The same holds for › and » |
| `ListView.Step` | payflow-ui-group-4/src/components/AdminDashboard.js:89-98 | typing sets the search text and, in the views that reset, page 1; in the others the page is kept. A guarded view's page buttons keep the page or give a page within the range. In a view with the ellipsis strip, a page number the strip does not draw as a button changes nothing |
| `ListView.StepKeepsRange` | payflow-ui-group-4/src/components/EmployeesList.js:36-44 | in a view that resets on search, every action keeps the page within 1..totalPages |
| `ListView.RunKeepsRange` | payflow-ui-group-4/src/components/AdminDashboard.js:95-98 | the same holds for any sequence of actions from a valid page |
| `ListView.ResettingViewStaysInRange` | payflow-ui-group-4/src/components/EmployeesList.js:42-44 | from the initial state, a resetting view never shows a page beyond the last |
| `ListView.VisibleEmptyIffNoMatch` | payflow-ui-group-4/src/components/EmployeesList.js:76-77 | on a valid page the table is empty exactly when no record matches |
| `ListView.VisibleAreMatches` | payflow-ui-group-4/src/components/AdminDashboard.js:81-87 | every row on screen is a loaded record that matches the search |
| `ListView.EveryMatchOnSomePage` | payflow-ui-group-4/src/components/EmployeesList.js:33-34 | every matching record is shown on some valid page |
| `ListView.StaleAfterSearch` | payflow-ui-group-4/src/components/HRDashboard.js:87-88 | when more than one page matches "", Next then a search matching nothing ends differently by view. A view without the reset sits on page 2 of 1 with an empty table; a resetting view lands on page 1 |
| `ListView.ClampedNextRecovers` | payflow-ui-group-4/src/components/HRDashboard.js:188 | in a clamped view, Next on a page past the end, while the pager is drawn, returns to the last page |
| `ListView.ClampedHiddenPagerStrands` | payflow-ui-group-4/src/components/ManagerDashboard.js:196-202 | in a clamped view with a single page the pager is hidden, and no pager event changes the state |
| `ListView.ClampedPagerButtons` | payflow-ui-group-4/src/components/HRDashboard.js:184-190 | with the pager drawn, Prev gives `max(1, p − 1)` and Next `min(totalPages, p + 1)`. The pager is drawn exactly when more than one page's worth of rows match |
| `ListView.SearchKeepsStalePage` | payflow-ui-group-4/src/components/ManagerDashboard.js:102-103 | without the reset, typing keeps the page, and a page past the new end shows an empty table |
| `ListView.GuardedArrows` | payflow-ui-group-4/src/components/EmployeesList.js:97-117 | in a guarded view on a valid page, Prev and « are disabled exactly when they would change nothing. The same holds for Next and » |
| `AdminDashboard.NonAdminUsers` | payflow-ui-group-4/src/components/AdminDashboard.js:31 | the users whose role is not ADMIN, each as many times as it was fetched, in their original order |
| `AdminDashboard.ComputeStats` | payflow-ui-group-4/src/components/AdminDashboard.js:33-38 | active + disabled ≤ the number of non-admin users, and HR + managers ≤ the same number |
| `AdminDashboard.StatsOfOneMore` | payflow-ui-group-4/src/components/AdminDashboard.js:34-37 | one more fetched user adds one to each counter it qualifies for: case-insensitive `active` / `disabled` status, exact HR / MANAGER role. An ADMIN adds to none |
| `AdminDashboard.ToggledStatus` | payflow-ui-group-4/src/components/AdminDashboard.js:58 | the toggle sends `Disabled` exactly for `Active` and `Active` for anything else. It never sends the current status |
| `AdminDashboard.ToggleTwice` | payflow-ui-group-4/src/components/AdminDashboard.js:222-235 | on `Active`/`Disabled` two toggles restore the status |
| `AdminDashboard.AfterCreate` | payflow-ui-group-4/src/components/AdminDashboard.js:44-54 | a created user resets the form to `("", "", HR)`, hides the panel and shows `User "<name>" created successfully!`. A failure shows `Error creating user` and keeps the form |
| `AdminDashboard.PanelStep` | payflow-ui-group-4/src/components/AdminDashboard.js:302-357 | opening and closing set only `shown`. The inputs, the role select and Create User act only while the panel is shown: typing sets one field, the select gives HR or MANAGER, and Create User settles as `AfterCreate`. Closing the banner clears the message |
| `AdminDashboard.RoleAlwaysOffered` | payflow-ui-group-4/src/components/AdminDashboard.js:335-341 | over any events, the form's role stays one of the two options the select offers |
| `AdminDashboard.CreateThenReopen` | payflow-ui-group-4/src/components/AdminDashboard.js:44-50 | after a successful create, reopening the panel shows the blank form, and the success message remains |
| `AdminDashboard.FailureAndCloseKeepForm` | payflow-ui-group-4/src/components/AdminDashboard.js:51-53 | a failed create only sets the error message and keeps the panel open with what was typed; closing and reopening the panel keeps the form too |
| `AdminDashboard.GoToDrawnButtons` | payflow-ui-group-4/src/components/AdminDashboard.js:264-287 | a page-number click changes the page only when the strip draws that page as a button, and a drawn button always takes the view to its page |
| `AdminDashboard.ReachableAdminView` | payflow-ui-group-4/src/components/AdminDashboard.js:86-98 | after any actions the page is valid, the strip shows it as a button, and the table is empty only when no username matches |
| `AdminDashboard.RowsShowUsername` | payflow-ui-group-4/src/components/AdminDashboard.js:209 | `user.username \|\| user.name` never falls back on a shown row |
| `EmployeesList.StaffOnly` | payflow-ui-group-4/src/components/EmployeesList.js:20 | the records whose role is HR or MANAGER, each as many times as it was fetched, in their original order |
| `EmployeesList.ReachableEmployeesList` | payflow-ui-group-4/src/components/EmployeesList.js:76-116 | after any actions the page is valid and "No HRs or Managers found." shows exactly when no name matches. The strip has totalPages buttons, one of them the current page |
| `EmployeesList.RowsAreMatchingStaff` | payflow-ui-group-4/src/components/EmployeesList.js:20-34 | every listed row is a fetched HR or manager whose name matches |
| `HrDashboard.ComputeStats` | payflow-ui-group-4/src/components/HRDashboard.js:45-49 | the total is the number of employees. Pending ≤ total, and pending is 0 exactly when no status is exactly `Pending` |
| `HrDashboard.StatsOfOneMore` | payflow-ui-group-4/src/components/HRDashboard.js:46-48 | one more employee adds one to the total, and one to pending exactly for status `Pending` |
| `HrDashboard.OnboardingEvents` | payflow-ui-group-4/src/components/HRDashboard.js:78 | one `Onboarding` event per employee, in order, with its name and start date |
| `HrDashboard.UpcomingEvents` | payflow-ui-group-4/src/components/HRDashboard.js:77-79 | the first `min(3, n)` employees in order, each as an `Onboarding` event |
| `HrDashboard.RowsMatchNameOrEmail` | payflow-ui-group-4/src/components/HRDashboard.js:82-88 | every row is an employee whose non-empty name or non-empty email contains the search text, ignoring case |
| `ManagerDashboard.Refresh` | payflow-ui-group-4/src/components/ManagerDashboard.js:54-59 | a load sets the team size to the number fetched. It copies the other three counters from the stats it closed over |
| `ManagerDashboard.RefreshesKeepCounters` | payflow-ui-group-4/src/components/ManagerDashboard.js:54-59 | over any series of loads the three other counters keep their value, and the team size is that of the latest load |
| `ManagerDashboard.StatsAfterLoads` | payflow-ui-group-4/src/components/ManagerDashboard.js:5-10 | from the initial zeros, the cards show the last load's size and 0, 0, 0 |
| `ManagerDashboard.StrandedAfterSearch` | payflow-ui-group-4/src/components/ManagerDashboard.js:196-202 | after Next and a search matching nothing, the view shows an empty "Page 2 of 1". No pager event moves it, because the pager is not drawn |
| `Onboarding.SetExp` | payflow-ui-group-4/src/components/HRDashboard.js:369-372 | an input sets its own field of an experience and leaves the other three |
| `Onboarding.AddExperience` | payflow-ui-group-4/src/components/HRDashboard.js:414 | appends exactly one blank entry and keeps the others |
| `Onboarding.RemoveExperience` | payflow-ui-group-4/src/components/HRDashboard.js:410 | the index filter drops exactly entry idx and keeps the rest in order. An index outside the list changes nothing |
| `Onboarding.RemoveExperienceCount` | payflow-ui-group-4/src/components/HRDashboard.js:409-411 | removal leaves one entry fewer, and the others keep their multiplicities |
| `Onboarding.RemoveAfterAdd` | payflow-ui-group-4/src/components/ManagerDashboard.js:406-411 | removing the entry just added gives back the list before |
| `Onboarding.EditExperience` | payflow-ui-group-4/src/components/HRDashboard.js:365-407 | editing sets one field of entry idx, and every other entry and field is unchanged |
| `Onboarding.SetPersonal` | payflow-ui-group-4/src/components/HRDashboard.js:256-319 | a step-1 input sets its own personal field and leaves the other six |
| `Onboarding.SetEducation` | payflow-ui-group-4/src/components/HRDashboard.js:325-359 | a step-2 input sets its own education field and leaves the other three |
| `Onboarding.PayloadOf` | payflow-ui-group-4/src/components/HRDashboard.js:57 | the payload carries the personal fields, `leaves = 12`, the experiences and the education as they stand |
| `Onboarding.WizardStep` | payflow-ui-group-4/src/components/HRDashboard.js:239-428 | Next goes 1→2 and Back 2→1; close hides the modal and sets step 1. A successful post clears personal and education, hides the modal, sets step 1 and keeps the experiences; a failed post changes nothing. Each part of the form changes only through its own controls, and the experience list never becomes empty |
| `Onboarding.StepKeepsWizardOk` | payflow-ui-group-4/src/components/HRDashboard.js:409-428 | every event keeps the step in {1, 2}, keeps a hidden modal on step 1 and keeps at least one experience |
| `Onboarding.RunKeepsWizardOk` | payflow-ui-group-4/src/components/ManagerDashboard.js:417-425 | the same holds for any sequence of events |
| `Onboarding.ReachableWizard` | payflow-ui-group-4/src/components/HRDashboard.js:12 | from the initial wizard, whatever the user does, step ∈ {1, 2}. A hidden modal is on step 1, and the experience list is non-empty |
| `Onboarding.NextThenBack` | payflow-ui-group-4/src/components/HRDashboard.js:420-425 | Next then Back returns the same wizard |
| `Onboarding.PayloadCarriesInput` | payflow-ui-group-4/src/components/ManagerDashboard.js:67 | what is typed in step 1 reaches the payload after Next, with 12 days of leave |
| `App.Stamp` | payflow-ui-group-4/src/App.js:26 | the stored request carries the form's four fields and the signed-in user's username |
| `App.AddLeaveRequest` | payflow-ui-group-4/src/App.js:25-26 | appends exactly one request; the earlier ones are unchanged and in order |
| `App.RequestsOf` | payflow-ui-group-4/src/App.js:102 | the stored requests with that username, each as many times as it was stored (a request sent twice is listed twice), in order |
| `App.AddLeaveRequestViews` | payflow-ui-group-4/src/App.js:25-26 | after u sends a request, u's list gains exactly that request at the end, and every other user's list is unchanged |
| `App.TrimSlashes` | payflow-ui-group-4/src/App.js:64-105 | the trimmed location is a prefix of the location that does not end in `/`, and everything cut off is `/` |
| `App.CanonicalKey` | payflow-ui-group-4/src/App.js:64-105 | a path with no capital letter and no trailing slash is its own route key, and every route key is such a path |
| `App.RouteKeyVariants` | payflow-ui-group-4/src/App.js:64-105 | the route key of a location is unchanged by adding a trailing slash or lower-casing it |
| `App.GuardsCanonical` | payflow-ui-group-4/src/App.js:66-104 | every path of the route table is lower-case without a trailing slash, so it is matched by its own text |
| `App.RouteFollowsGuards` | payflow-ui-group-4/src/App.js:66-105 | a location matches a route iff the guard table lists its route key. That route renders its page, not "Access Denied", exactly for the roles the table names |
| `App.HomePath` | payflow-ui-group-4/src/App.js:106 | the redirect target is `/admin` for ADMIN, `/hr` for HR and `/manager` for any other role; it is a declared route and its own route key |
| `App.Resolve` | payflow-ui-group-4/src/App.js:64-106 | a location some route matches stays shown and renders that route; any other location shows the role's home path and renders its route |
| `App.ResolveIgnoresCaseAndSlash` | payflow-ui-group-4/src/App.js:64-106 | a location renders the same page as its lower-cased form and as itself with a trailing slash |
| `App.FallbackLanding` | payflow-ui-group-4/src/App.js:106 | a location no route matches takes ADMIN, HR and MANAGER to their dashboards and any other role to "Access Denied" |
| `App.Render` | payflow-ui-group-4/src/App.js:47-59 | with no user the login page is drawn. A non-ADMIN user on first login gets the reset page on every path. Everyone else gets the routes |
| `App.AppStep` | payflow-ui-group-4/src/App.js:36-51 | logout clears the user, and login sets it when no one is signed in. Only sending a leave request adds to the store, which grows by one and keeps its old entries as a prefix |
| `App.StoreOnlyGrows` | payflow-ui-group-4/src/App.js:23-26 | over any events, including logouts, the store keeps every earlier request in place |
| `App.StoredRequestsBelongToEmployees` | payflow-ui-group-4/src/App.js:98-104 | every stored request carries the username of an EMPLOYEE who was signed in |
| `App.LeavePageShowsOwnRequests` | payflow-ui-group-4/src/App.js:98-104 | on any location matching `/employee/leave-request`, an EMPLOYEE past the first-login gate sees the leave page listing exactly their own requests |
| `App.SendLeaveAppendsOwn` | payflow-ui-group-4/src/App.js:25-26 | a request sent from the leave page is appended to the end of the sender's own list |
| `Sidebar.NavItems` | payflow-ui-group-4/src/components/Sidebar.js:11-40 | ADMIN, HR and MANAGER get four links and EMPLOYEE one; no user or any other role gets none |
| `Sidebar.NavItemsShape` | payflow-ui-group-4/src/components/Sidebar.js:12-37 | each role's links lie under its own prefix, and no path is listed twice |
| `Sidebar.AtMostOneActive` | payflow-ui-group-4/src/components/Sidebar.js:7-9 | whatever the location, at most one link is highlighted |
| `Sidebar.DisplayName` | payflow-ui-group-4/src/components/Sidebar.js:57 | the displayed name is the name, else the username, else `User`, and is never empty |
| `Sidebar.DisplayRole` | payflow-ui-group-4/src/components/Sidebar.js:58 | the displayed role is the role, else `User`, and is never empty |
| `Sidebar.SidebarLinksAuthorized` | payflow-ui-group-4/src/components/Sidebar.js:11-40 | no sidebar link of a user past the first-login gate ends on "Access Denied" |
| `LeaveRequestForm.Update` | payflow-ui-group-4/src/components/LeaveRequestForm.js:11-13 | a change sets the named field and leaves the other three |
| `LeaveRequestForm.UpdateLaws` | payflow-ui-group-4/src/components/LeaveRequestForm.js:11-13 | writing a field's own value changes nothing; of two writes to a field the last wins |
| `LeaveRequestForm.FormStep` | payflow-ui-group-4/src/components/LeaveRequestForm.js:15-19 | a submit passes the current form on and leaves all four fields empty; a change sends nothing |
| `LeaveRequestForm.SentAreComplete` | payflow-ui-group-4/src/components/LeaveRequestForm.js:26-46 | every request passed on has all four required fields filled in |
| `LeaveRequestForm.FillAndSubmit` | payflow-ui-group-4/src/components/LeaveRequestForm.js:4-19 | from the empty form, filling the four fields and submitting sends exactly what was typed and leaves the form empty |
| `EmployeeForm.Update` | payflow-ui-group-4/src/components/EmployeeForm.js:19-21 | a change sets the named field and leaves the other seven |
| `EmployeeForm.FormStep` | payflow-ui-group-4/src/components/EmployeeForm.js:23-48 | a complete form posts the record as it stands. An ok response empties every field; not-ok or a network error keeps the record. Typing changes only fields that have an input |
| `EmployeeForm.UninputFieldsStayEmpty` | payflow-ui-group-4/src/components/EmployeeForm.js:55-61 | designation and department start empty and stay empty under any events |
| `EmployeeForm.PostedBodiesLackDesignation` | payflow-ui-group-4/src/components/EmployeeForm.js:29 | every posted body has an empty designation and department |
| `EmployeeForm.EmptyFormIsIncomplete` | payflow-ui-group-4/src/components/EmployeeForm.js:8-17 | the initial all-empty record cannot be submitted |

## Left out

- Network calls, JSON parsing, logging and notifications. This covers every `fetch` and `API.post`, `console`, `alert`, `toast` and `Swal`. Each response is an `Outcome` argument, and fetched lists are parameters.
- Reloading after a mutation. `loadUsers`/`loadEmployees` after a create or a toggle is not modelled: during a run of view events the records are fixed. A reload changes the list under an unchanged page, and the model does not follow that.
- The `newThisMonth` counter and every `Date` / `toLocaleDateString` use. They depend on the clock and the locale.
- `getTeamPerformance`, a constant table, and the static "95%" card.
- `Topbar.js` (clock and menu toggle), `LoginPage.js` and `ResetPasswordPage.js`: network plumbing. `LeaveRequestList.js`, `Layout.js` and `EmployeeLeavePage.js`: rendering-only composition.
- React scheduling. Reset-on-search is a direct transition of the `Typed` event. An asynchronous response is taken to arrive before the next user event. The `setTimeout` before logout is not modelled; only its final `user := null` is.
- Object identity. `arr[idx].company = …` mutates the entry shared with the previous state. It is modelled as a functional update of entry idx.
- Full Unicode `toLowerCase`, which can change a string's length. Lower-casing is the ASCII map.
- Markup, styling, and the admin navigation button.
- Route matching beyond case and trailing slashes: percent-decoding of the location and a router basename are not modelled.
- The browser's `required` validation is modelled only as the guard `Complete` on submit; other input types (`email`, `number`, `date`) are not validated.
- `HrDashboard.ComputeStats`: states the total and pending counters only, because `newThisMonth` needs the clock.
