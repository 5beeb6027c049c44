/** The page controls under a list: the admin view's numbered strip with
    ellipses, the employees list's full strip, and the arrow buttons. */
module PageStrip {
  import opened ListEngine

  /** One element of the strip, keyed by the page number it stands for. */
  datatype Control = Button(page: int) | Ellipsis(page: int)

  function Abs(x: int): nat {
    if x < 0 then -x else x
  }

  /** Page k gets a numbered button: the first page, the last page, and the
      pages next to the current one. */
  predicate IsButton(k: int, page: int, total: int) {
    k == 1 || k == total || Abs(page - k) <= 1
  }

  /** Page k, when it is not a button, is drawn as "...": only in slot 2 when
      the current page is past 3, or in the slot before the last page when
      the current page is more than two pages from the end. */
  predicate IsEllipsis(k: int, page: int, total: int) {
    (k == 2 && page > 3) || (k == total - 1 && page < total - 2)
  }

  /** What the strip draws for page k: a button, an ellipsis or nothing. */
  function ControlFor(k: int, page: int, total: int): seq<Control> {
    if IsButton(k, page, total) then [Button(k)]
    else if IsEllipsis(k, page, total) then [Ellipsis(k)]
    else []
  }

  /** The strip for pages k..total, in increasing page order. */
  function WindowFrom(page: int, total: int, k: int): (w: seq<Control>)
    requires k >= 1
    decreases total - k + 1
  {
    if k > total then [] else ControlFor(k, page, total) + WindowFrom(page, total, k + 1)
  }

  /** Nothing outside k..total is drawn. */
  lemma {:induction false} WindowFromRange(page: int, total: int, k: int)
    requires k >= 1
    ensures forall c :: c in WindowFrom(page, total, k) ==> k <= c.page <= total
    decreases total - k + 1
  {
    if k <= total {
      WindowFromRange(page, total, k + 1);
    }
  }

  /** Controls in strictly increasing page order, so no page twice. */
  predicate Increasing(w: seq<Control>) {
    forall i, j :: 0 <= i < j < |w| ==> w[i].page < w[j].page
  }

  /** The strip is in strictly increasing page order. */
  lemma {:induction false} WindowFromSorted(page: int, total: int, k: int)
    requires k >= 1
    ensures Increasing(WindowFrom(page, total, k))
    decreases total - k + 1
  {
    if k <= total {
      WindowFromSorted(page, total, k + 1);
      WindowFromRange(page, total, k + 1);
      var head, rest := ControlFor(k, page, total), WindowFrom(page, total, k + 1);
      var w := head + rest;
      assert head == [] || head == [Button(k)] || head == [Ellipsis(k)];
      forall i, j | 0 <= i < j < |w|
        ensures w[i].page < w[j].page
      {
        if i < |head| {
          assert head[0].page == k;
          assert w[i] == head[0] && w[j] == rest[j - 1] && w[j] in rest;
        } else {
          assert w[i] == rest[i - |head|] && w[j] == rest[j - |head|];
          assert rest[i - |head|].page < rest[j - |head|].page;
        }
      }
    }
  }

  /** Page j of k..total is drawn as a button exactly when the button rule
      selects it, and as an ellipsis exactly when only the ellipsis rule does. */
  lemma {:induction false} WindowFromMembers(page: int, total: int, k: int)
    requires k >= 1
    ensures forall j :: k <= j <= total ==>
              (Button(j) in WindowFrom(page, total, k) <==> IsButton(j, page, total))
    ensures forall j :: k <= j <= total ==>
              (Ellipsis(j) in WindowFrom(page, total, k) <==> !IsButton(j, page, total) && IsEllipsis(j, page, total))
    decreases total - k + 1
  {
    if k <= total {
      WindowFromMembers(page, total, k + 1);
      WindowFromRange(page, total, k + 1);
      var head, rest := ControlFor(k, page, total), WindowFrom(page, total, k + 1);
      assert WindowFrom(page, total, k) == head + rest;
      assert Button(k) !in rest && Ellipsis(k) !in rest;
      forall j | k < j <= total
        ensures Button(j) in head + rest <==> Button(j) in rest
        ensures Ellipsis(j) in head + rest <==> Ellipsis(j) in rest
      {
        assert Button(j) !in head && Ellipsis(j) !in head;
      }
    }
  }

  /** The admin view's strip: `Array.from({ length: totalPages })` mapped to
      a button, an ellipsis or `null`, the nulls dropped by React. */
  function Window(page: int, total: int): seq<Control> {
    WindowFrom(page, total, 1)
  }

  /** The admin strip, read page by page from 1 to totalPages: a button when
      the button rule selects the page, otherwise an ellipsis when the
      ellipsis rule does, otherwise nothing; in increasing order. */
  lemma WindowRule(page: int, total: int)
    ensures Increasing(Window(page, total))
    ensures forall c :: c in Window(page, total) ==> 1 <= c.page <= total
    ensures forall j :: 1 <= j <= total ==>
              (Button(j) in Window(page, total) <==> IsButton(j, page, total))
    ensures forall j :: 1 <= j <= total ==>
              (Ellipsis(j) in Window(page, total) <==> !IsButton(j, page, total) && IsEllipsis(j, page, total))
  {
    WindowFromSorted(page, total, 1);
    WindowFromRange(page, total, 1);
    WindowFromMembers(page, total, 1);
  }

  /** Page 1, the last page and the current page are always buttons. */
  lemma WindowKeepsAnchors(page: int, total: int)
    requires total >= 1
    ensures Button(1) in Window(page, total)
    ensures Button(total) in Window(page, total)
    ensures 1 <= page <= total ==> Button(page) in Window(page, total)
  {
    WindowFromMembers(page, total, 1);
  }

  /** No page gets both a button and an ellipsis, and nothing outside
      1..totalPages is drawn. */
  lemma WindowWellFormed(page: int, total: int)
    ensures forall j :: !(Button(j) in Window(page, total) && Ellipsis(j) in Window(page, total))
    ensures forall c :: c in Window(page, total) ==> 1 <= c.page <= total
  {
    WindowFromMembers(page, total, 1);
    WindowFromRange(page, total, 1);
  }

  function EllipsisCount(w: seq<Control>): nat {
    if w == [] then 0 else (if w[0].Ellipsis? then 1 else 0) + EllipsisCount(w[1..])
  }

  lemma {:induction false} EllipsisCountAppend(a: seq<Control>, b: seq<Control>)
    ensures EllipsisCount(a + b) == EllipsisCount(a) + EllipsisCount(b)
  {
    if a == [] {
      assert a + b == b;
    } else {
      assert (a + b)[1..] == a[1..] + b;
      EllipsisCountAppend(a[1..], b);
    }
  }

  lemma {:induction false} EllipsesFrom(page: int, total: int, k: int)
    requires k >= 1
    ensures EllipsisCount(WindowFrom(page, total, k)) <= if k <= 2 then 2 else if k <= total - 1 then 1 else 0
    decreases total - k + 1
  {
    if k <= total {
      EllipsesFrom(page, total, k + 1);
      EllipsisCountAppend(ControlFor(k, page, total), WindowFrom(page, total, k + 1));
    }
  }

  /** The strip never holds more than two ellipses. */
  lemma AtMostTwoEllipses(page: int, total: int)
    ensures EllipsisCount(Window(page, total)) <= 2
  {
    EllipsesFrom(page, total, 1);
  }

  /** Every page hidden from the strip sits on a side of the current page
      that is marked by an ellipsis. */
  lemma HiddenPagesMarked(page: int, total: int, k: int)
    requires 1 <= page <= total
    requires 1 <= k <= total && !IsButton(k, page, total)
    ensures k < page ==> Ellipsis(2) in Window(page, total)
    ensures k > page ==> Ellipsis(total - 1) in Window(page, total)
  {
    WindowFromMembers(page, total, 1);
  }

  /** The example of ten pages with page 6 current:
      [1, ..., 5, 6, 7, ..., 10]. */
  lemma WindowExampleTenPages()
    ensures Window(6, 10) == [Button(1), Ellipsis(2), Button(5), Button(6), Button(7), Ellipsis(9), Button(10)]
  {
    WindowTenMiddle();
    assert WindowFrom(6, 10, 2) == [Ellipsis(2), Button(5), Button(6), Button(7), Ellipsis(9), Button(10)];
  }

  /** Pages 3 to 10 of the same strip: [5, 6, 7, ..., 10]. */
  lemma WindowTenMiddle()
    ensures WindowFrom(6, 10, 3) == [Button(5), Button(6), Button(7), Ellipsis(9), Button(10)]
  {
    WindowTenTail();
    assert WindowFrom(6, 10, 7) == [Button(7), Ellipsis(9), Button(10)];
    assert WindowFrom(6, 10, 6) == [Button(6), Button(7), Ellipsis(9), Button(10)];
    assert WindowFrom(6, 10, 5) == [Button(5), Button(6), Button(7), Ellipsis(9), Button(10)];
    assert WindowFrom(6, 10, 4) == [Button(5), Button(6), Button(7), Ellipsis(9), Button(10)];
  }

  /** Pages 8 to 10 of the same strip: [..., 10]. */
  lemma WindowTenTail()
    ensures WindowFrom(6, 10, 8) == [Ellipsis(9), Button(10)]
  {
    assert WindowFrom(6, 10, 11) == [];
    assert WindowFrom(6, 10, 10) == [Button(10)];
    assert ControlFor(8, 6, 10) == [];
  }

  /** With four pages and page 1 current, page 3 alone is hidden behind an
      ellipsis: [1, 2, ..., 4]. */
  lemma WindowExampleFourPages()
    ensures Window(1, 4) == [Button(1), Button(2), Ellipsis(3), Button(4)]
  {
    assert WindowFrom(1, 4, 5) == [];
    assert WindowFrom(1, 4, 4) == [Button(4)];
    assert WindowFrom(1, 4, 3) == [Ellipsis(3), Button(4)];
  }

  /** The employees list's strip: a button for every page 1..total. */
  function FullStrip(total: nat): (s: seq<Control>)
    ensures |s| == total
    ensures forall i :: 0 <= i < total ==> s[i] == Button(i + 1)
  {
    if total == 0 then [] else FullStrip(total - 1) + [Button(total)]
  }

  lemma {:induction false} AllButtonsFrom(page: int, total: nat, k: int)
    requires 1 <= k
    requires forall j :: k <= j <= total ==> IsButton(j, page, total)
    ensures WindowFrom(page, total, k) == if k <= total then FullStrip(total)[k - 1..] else []
    decreases total - k + 1
  {
    if k <= total {
      AllButtonsFrom(page, total, k + 1);
      var full := FullStrip(total);
      if k < total {
        assert full[k - 1..] == [Button(k)] + full[k..];
      } else {
        assert full[k - 1..] == [Button(k)];
      }
    }
  }

  /** Up to three pages, the admin strip and the employees list strip agree:
      every page is a button. */
  lemma SmallWindowIsFull(page: int, total: nat)
    requires 1 <= page <= total <= 3
    ensures Window(page, total) == FullStrip(total)
  {
    AllButtonsFrom(page, total, 1);
  }

  /** The first and previous arrows are disabled on page 1. */
  predicate BackDisabled(page: int) {
    page == 1
  }

  /** The next and last arrows are disabled on the last page. */
  predicate ForwardDisabled(page: int, total: int) {
    page == total
  }

  /** On a valid page, an arrow of a view with the guarded setter is
      disabled exactly when clicking it would leave the page unchanged. */
  lemma DisabledIffNoEffect(page: PageNo, total: nat)
    requires page <= total
    ensures BackDisabled(page) <==> GuardedPageChange(page, page - 1, total) == page
    ensures BackDisabled(page) <==> GuardedPageChange(page, 1, total) == page
    ensures ForwardDisabled(page, total) <==> GuardedPageChange(page, page + 1, total) == page
    ensures ForwardDisabled(page, total) <==> GuardedPageChange(page, total, total) == page
  {
  }
}
