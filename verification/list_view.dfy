/** A list view as a state machine: the search text and the current page,
    driven by typing in the search box and by the pager's buttons. The four
    list views differ only in the parameters of `Config`. */
module ListView {
  import opened Records
  import opened ListEngine
  import opened Search
  import opened PageStrip

  /** How the pager moves: through `handlePageChange` (ignore invalid pages)
      or through `Math.max`/`Math.min` clamping. */
  datatype Navigation = Guarded | Clamped

  /** The parameters that distinguish one list view from another. With
      `ellipsisStrip` set, the numbered buttons are only those the ellipsis
      strip draws (the first and last pages and the neighbours of the
      current one); otherwise every page has a button. */
  datatype Config = Config(field: Field, pageSize: nat, resetOnSearch: bool, nav: Navigation, ellipsisStrip: bool)

  predicate Valid(c: Config) {
    c.pageSize > 0
  }

  /** The view state: `useState('')` for the search text, `useState(1)` for
      the page. */
  datatype State = State(search: string, page: PageNo)

  const Initial: State := State("", 1)

  /** What the user can do: type a new search text, click a numbered (or
      first/last) button, or click the previous/next arrow. */
  datatype Event = Typed(q: string) | GoTo(k: int) | PrevPage | NextPage

  function Filtered(c: Config, records: seq<Record>, s: State): seq<Record> {
    SearchRecords(records, c.field, s.search)
  }

  function Total(c: Config, records: seq<Record>, s: State): PageNo
    requires Valid(c)
  {
    TotalPages(|Filtered(c, records, s)|, c.pageSize)
  }

  /** The rows on screen: the current page's slice of the filtered list. */
  function Visible(c: Config, records: seq<Record>, s: State): seq<Record>
    requires Valid(c)
  {
    PageSlice(Filtered(c, records, s), s.page, c.pageSize)
  }

  /** The page is one of 1..totalPages. */
  predicate InRange(c: Config, records: seq<Record>, s: State)
    requires Valid(c)
  {
    s.page <= Total(c, records, s)
  }

  /** One user action. Typing replaces the search text and, in the views
      that reset, sets the page to 1 (the effect on `[search]`). The
      clamped views have no numbered buttons, and their arrows are drawn
      only when there is more than one page. A view with the ellipsis strip
      has a button only for the pages the strip draws. A click on a button
      that is not drawn changes nothing. */
  function Step(c: Config, records: seq<Record>, s: State, e: Event): (t: State)
    requires Valid(c)
    ensures e.Typed? ==> t.search == e.q
    ensures !e.Typed? ==> t.search == s.search
    ensures e.Typed? && c.resetOnSearch ==> t.page == 1
    ensures e.Typed? && !c.resetOnSearch ==> t.page == s.page
    ensures !e.Typed? && c.nav == Guarded ==> t.page == s.page || t.page <= Total(c, records, s)
    ensures e.GoTo? && c.ellipsisStrip && !IsButton(e.k, s.page, Total(c, records, s)) ==> t == s
  {
    var total := Total(c, records, s);
    match e
    case Typed(q) =>
      if c.resetOnSearch then State(q, 1) else State(q, s.page)
    case GoTo(k) =>
      if c.nav == Guarded && (!c.ellipsisStrip || IsButton(k, s.page, total)) then
        s.(page := GuardedPageChange(s.page, k, total))
      else s
    case PrevPage =>
      if c.nav == Guarded then s.(page := GuardedPageChange(s.page, s.page - 1, total))
      else if total > 1 then s.(page := ClampedPrev(s.page))
      else s
    case NextPage =>
      if c.nav == Guarded then s.(page := GuardedPageChange(s.page, s.page + 1, total))
      else if total > 1 then s.(page := ClampedNext(s.page, total))
      else s
  }

  function Run(c: Config, records: seq<Record>, s: State, events: seq<Event>): State
    requires Valid(c)
    decreases |events|
  {
    if events == [] then s else Run(c, records, Step(c, records, s, events[0]), events[1..])
  }

  /** In a view that resets the page on search, every action keeps the page
      within 1..totalPages. */
  lemma StepKeepsRange(c: Config, records: seq<Record>, s: State, e: Event)
    requires Valid(c) && c.resetOnSearch
    requires InRange(c, records, s)
    ensures InRange(c, records, Step(c, records, s, e))
  {
  }

  lemma {:induction false} RunKeepsRange(c: Config, records: seq<Record>, s: State, events: seq<Event>)
    requires Valid(c) && c.resetOnSearch
    requires InRange(c, records, s)
    ensures InRange(c, records, Run(c, records, s, events))
    decreases |events|
  {
    if events != [] {
      StepKeepsRange(c, records, s, events[0]);
      RunKeepsRange(c, records, Step(c, records, s, events[0]), events[1..]);
    }
  }

  /** Starting from the initial state, a view that resets on search never
      shows a page beyond the last one, whatever the user does. */
  lemma ResettingViewStaysInRange(c: Config, records: seq<Record>, events: seq<Event>)
    requires Valid(c) && c.resetOnSearch
    ensures InRange(c, records, Run(c, records, Initial, events))
  {
    RunKeepsRange(c, records, Initial, events);
  }

  /** On a valid page, the table is empty exactly when nothing matches. */
  lemma VisibleEmptyIffNoMatch(c: Config, records: seq<Record>, s: State)
    requires Valid(c) && InRange(c, records, s)
    ensures Visible(c, records, s) == [] <==> Filtered(c, records, s) == []
  {
  }

  /** Every row on screen is a record that matches the search. */
  lemma VisibleAreMatches(c: Config, records: seq<Record>, s: State)
    requires Valid(c)
    ensures forall r :: r in Visible(c, records, s) ==> r in records && Keep(r, c.field, s.search)
  {
    var xs := Filtered(c, records, s);
    var v := Visible(c, records, s);
    forall r | r in v
      ensures r in xs
    {
      var i :| 0 <= i < |v| && v[i] == r;
      assert r == xs[PageStart(s.page, c.pageSize) + i];
    }
  }

  /** Every matching row is on some valid page of the view. */
  lemma EveryMatchOnSomePage(c: Config, records: seq<Record>, s: State, i: nat)
    requires Valid(c) && i < |Filtered(c, records, s)|
    ensures PageOf(i, c.pageSize) <= Total(c, records, s)
    ensures Filtered(c, records, s)[i] in Visible(c, records, State(s.search, PageOf(i, c.pageSize)))
  {
    var xs := Filtered(c, records, s);
    PageOfIndex(xs, c.pageSize, i);
  }

  /** In a view without the reset, going to page 2 and then typing a query
      that matches nothing leaves the view on page 2 of 1, with an empty
      table. A resetting view lands on page 1 instead. */
  lemma StaleAfterSearch(c: Config, records: seq<Record>, q: string)
    requires Valid(c)
    requires |SearchRecords(records, c.field, "")| > c.pageSize
    requires SearchRecords(records, c.field, q) == []
    ensures var s := Run(c, records, Initial, [NextPage, Typed(q)]);
      && (!c.resetOnSearch ==> s.page == 2 && !InRange(c, records, s) && Visible(c, records, s) == [])
      && (c.resetOnSearch ==> s.page == 1 && InRange(c, records, s))
  {
    MoreThanOnePage(|SearchRecords(records, c.field, "")|, c.pageSize);
    var s1 := Step(c, records, Initial, NextPage);
    assert s1.page == 2;
    var s2 := Step(c, records, s1, Typed(q));
    assert [NextPage, Typed(q)][1..] == [Typed(q)];
    assert Run(c, records, s2, []) == s2;
    assert Run(c, records, s1, [Typed(q)]) == s2;
  }

  /** In a clamped view, Next on a page beyond the end (while the pager is
      drawn) jumps back to the last page. */
  lemma ClampedNextRecovers(c: Config, records: seq<Record>, s: State)
    requires Valid(c) && c.nav == Clamped
    requires s.page > Total(c, records, s) > 1
    ensures Step(c, records, s, NextPage).page == Total(c, records, s)
    ensures InRange(c, records, Step(c, records, s, NextPage))
  {
  }

  /** In a clamped view with a single page of results the pager is not
      drawn, so a page beyond the end stays stranded until the search text
      changes. */
  lemma ClampedHiddenPagerStrands(c: Config, records: seq<Record>, s: State, e: Event)
    requires Valid(c) && c.nav == Clamped
    requires Total(c, records, s) == 1 && !e.Typed?
    ensures Step(c, records, s, e) == s
  {
  }

  /** In a clamped view, Prev gives `max(1, page - 1)` and Next gives
      `min(totalPages, page + 1)` while the pager is drawn, which is exactly
      when more than one page's worth of records match. */
  lemma ClampedPagerButtons(c: Config, records: seq<Record>, s: State)
    requires Valid(c) && c.nav == Clamped
    ensures var total := Total(c, records, s);
      && (total > 1 ==> Step(c, records, s, PrevPage).page == Max(1, s.page - 1))
      && (total > 1 ==> Step(c, records, s, NextPage).page == Min(total, s.page + 1))
      && (total > 1 <==> |Filtered(c, records, s)| > c.pageSize)
  {
    MoreThanOnePage(|Filtered(c, records, s)|, c.pageSize);
    ClampedArrows(c, records, s);
  }

  lemma ClampedArrows(c: Config, records: seq<Record>, s: State)
    requires Valid(c) && c.nav == Clamped
    ensures var total := Total(c, records, s);
      && Step(c, records, s, PrevPage).page == (if total > 1 then ClampedPrev(s.page) else s.page)
      && Step(c, records, s, NextPage).page == (if total > 1 then ClampedNext(s.page, total) else s.page)
  {
  }

  /** In a view without the reset, typing keeps the page, and a page beyond
      the new last page shows an empty table. */
  lemma SearchKeepsStalePage(c: Config, records: seq<Record>, s: State, q: string)
    requires Valid(c) && !c.resetOnSearch
    ensures Step(c, records, s, Typed(q)).page == s.page
    ensures var t := Step(c, records, s, Typed(q));
      s.page > Total(c, records, t) ==> Visible(c, records, t) == []
  {
  }

  /** With the guarded setter, on a valid page, each arrow is disabled
      exactly when clicking it would change nothing. */
  lemma GuardedArrows(c: Config, records: seq<Record>, s: State)
    requires Valid(c) && c.nav == Guarded && InRange(c, records, s)
    ensures BackDisabled(s.page) <==> Step(c, records, s, PrevPage) == s
    ensures BackDisabled(s.page) <==> Step(c, records, s, GoTo(1)) == s
    ensures ForwardDisabled(s.page, Total(c, records, s)) <==> Step(c, records, s, NextPage) == s
    ensures ForwardDisabled(s.page, Total(c, records, s)) <==> Step(c, records, s, GoTo(Total(c, records, s))) == s
  {
    DisabledIffNoEffect(s.page, Total(c, records, s));
  }
}
