/** The client-side list engine every list view repeats: a stable filter,
    page arithmetic, the page slice and the two page-navigation rules. */
module ListEngine {

  /** Page numbers are 1-based in every view and never drop below 1. */
  type PageNo = p: int | p >= 1 witness 1

  /** `a` can be obtained from `b` by deleting elements: order is kept. */
  predicate IsSubsequence<T(==)>(a: seq<T>, b: seq<T>)
    decreases |b|
  {
    a == [] || (b != [] && ((a[0] == b[0] && IsSubsequence(a[1..], b[1..])) || IsSubsequence(a, b[1..])))
  }

  /** `Array.prototype.filter`: the elements satisfying `keep`, in their
      original order, each occurrence kept or dropped as a whole. */
  function Filter<T(==,!new)>(xs: seq<T>, keep: T -> bool): (r: seq<T>)
    ensures |r| <= |xs|
    ensures forall x :: x in r <==> x in xs && keep(x)
    ensures forall x :: multiset(r)[x] == if keep(x) then multiset(xs)[x] else 0
    ensures IsSubsequence(r, xs)
  {
    if xs == [] then []
    else
      var rest := Filter(xs[1..], keep);
      assert xs == [xs[0]] + xs[1..];
      if keep(xs[0]) then
        assert ([xs[0]] + rest)[1..] == rest;
        [xs[0]] + rest
      else
        rest
  }

  lemma {:induction false} FilterAppend<T(!new)>(xs: seq<T>, ys: seq<T>, keep: T -> bool)
    ensures Filter(xs + ys, keep) == Filter(xs, keep) + Filter(ys, keep)
  {
    if xs == [] {
      assert xs + ys == ys;
    } else {
      assert (xs + ys)[1..] == xs[1..] + ys;
      FilterAppend(xs[1..], ys, keep);
    }
  }

  /** Filtering a list with one more element at the end adds that element
      at the end exactly when it is kept. */
  lemma FilterSnoc<T(!new)>(xs: seq<T>, x: T, keep: T -> bool)
    ensures Filter(xs + [x], keep) == Filter(xs, keep) + (if keep(x) then [x] else [])
  {
    FilterAppend(xs, [x], keep);
    if keep(x) {
      assert Filter([x], keep) == [x];
    } else {
      assert Filter([x], keep) == [];
    }
  }

  /** Filtering three elements of which the middle one is dropped. */
  lemma FilterOfThree<T(!new)>(a: T, b: T, c: T, keep: T -> bool)
    requires keep(a) && !keep(b) && keep(c)
    ensures Filter([a, b, c], keep) == [a, c]
  {
    assert [a, b, c][1..] == [b, c];
    assert [b, c][1..] == [c];
    assert Filter([c], keep) == [c];
    assert Filter([b, c], keep) == [c];
  }

  /** Filtering with a predicate that holds of every element changes nothing. */
  lemma {:induction false} FilterKeepsAll<T(!new)>(xs: seq<T>, keep: T -> bool)
    requires forall i :: 0 <= i < |xs| ==> keep(xs[i])
    ensures Filter(xs, keep) == xs
  {
    if xs != [] {
      FilterKeepsAll(xs[1..], keep);
    }
  }

  /** Filtering an already-filtered list with a stronger predicate gives the
      same list as filtering the original with it: narrowing a search can be
      answered from the previous result. */
  lemma {:induction false} FilterNarrowing<T(!new)>(xs: seq<T>, wide: T -> bool, narrow: T -> bool)
    requires forall x :: narrow(x) ==> wide(x)
    ensures Filter(Filter(xs, wide), narrow) == Filter(xs, narrow)
  {
    if xs != [] {
      FilterNarrowing(xs[1..], wide, narrow);
    }
  }

  /** Filtering depends only on which elements the predicate keeps. */
  lemma {:induction false} FilterSamePredicate<T(!new)>(xs: seq<T>, p: T -> bool, q: T -> bool)
    requires forall x :: p(x) == q(x)
    ensures Filter(xs, p) == Filter(xs, q)
  {
    if xs != [] {
      FilterSamePredicate(xs[1..], p, q);
    }
  }

  /** Filtering twice with the same predicate is filtering once. */
  lemma FilterIdempotent<T(!new)>(xs: seq<T>, keep: T -> bool)
    ensures Filter(Filter(xs, keep), keep) == Filter(xs, keep)
  {
    FilterNarrowing(xs, keep, keep);
  }

  /** Two counts taken with predicates that never hold together add up to
      at most the length of the list. */
  lemma {:induction false} FilterDisjointCounts<T(!new)>(xs: seq<T>, p: T -> bool, q: T -> bool)
    requires forall x :: !(p(x) && q(x))
    ensures |Filter(xs, p)| + |Filter(xs, q)| <= |xs|
  {
    if xs != [] {
      FilterDisjointCounts(xs[1..], p, q);
    }
  }

  function Min(a: int, b: int): int {
    if a <= b then a else b
  }

  function Max(a: int, b: int): int {
    if a >= b then a else b
  }

  /** `Math.ceil(n / size) || 1`: the number of pages, which is 1 for an
      empty list instead of 0. */
  function TotalPages(n: nat, size: nat): (t: nat)
    requires size > 0
    ensures t >= 1
    ensures n == 0 ==> t == 1
    ensures n > 0 ==> (t - 1) * size < n <= t * size
  {
    if n == 0 then 1
    else
      var t := (n + size - 1) / size;
      CeilDivBounds(n, size);
      t
  }

  lemma CeilDivBounds(n: nat, size: nat)
    requires size > 0 && n > 0
    ensures ((n + size - 1) / size - 1) * size < n <= ((n + size - 1) / size) * size
    ensures (n + size - 1) / size >= 1
  {
    var q, r := (n + size - 1) / size, (n + size - 1) % size;
    assert n + size - 1 == q * size + r;
    assert (q - 1) * size == q * size - size;
  }

  /** The page count is the least number of pages of `size` rows that hold
      all `n` rows (and at least one page). */
  lemma TotalPagesIsLeast(n: nat, size: nat, k: nat)
    requires size > 0
    requires k >= 1 && n <= k * size
    ensures TotalPages(n, size) <= k
  {
    var t := TotalPages(n, size);
    if n > 0 && t > k {
      MulMonotone(k, t - 1, size);
    }
  }

  /** There is more than one page exactly when the list holds more than
      one page's worth of rows. */
  lemma MoreThanOnePage(n: nat, size: nat)
    requires size > 0
    ensures TotalPages(n, size) > 1 <==> n > size
  {
    if n > size {
      assert TotalPages(n, size) * size >= n;
    } else {
      TotalPagesIsLeast(n, size, 1);
    }
  }

  lemma MulMonotone(a: int, b: int, c: nat)
    requires a <= b
    ensures a * c <= b * c
  {
  }

  /** `xs.slice(start, end)` for non-negative bounds: indices past the end
      are cut off and an empty range gives the empty list. */
  function Slice<T>(xs: seq<T>, start: nat, end: nat): (r: seq<T>)
    ensures |r| == Max(0, Min(end, |xs|) - start)
    ensures |r| > 0 ==> start + |r| <= |xs|
    ensures forall i :: 0 <= i < |r| ==> r[i] == xs[start + i]
  {
    if start >= end || start >= |xs| then [] else xs[start..Min(end, |xs|)]
  }

  /** `xs.slice((page - 1) * size, page * size)`. The page is not clamped:
      a page past the last one gives the empty list. */
  function PageSlice<T>(xs: seq<T>, page: PageNo, size: nat): (r: seq<T>)
    requires size > 0
    ensures |r| <= size
    ensures |r| > 0 ==> PageStart(page, size) + |r| <= |xs|
    ensures forall i :: 0 <= i < |r| ==> r[i] == xs[PageStart(page, size) + i]
    ensures page > TotalPages(|xs|, size) ==> r == []
    ensures page <= TotalPages(|xs|, size) && |xs| > 0 ==> |r| > 0
    ensures page < TotalPages(|xs|, size) ==> |r| == size
  {
    PageBounds(|xs|, page, size);
    Slice(xs, PageStart(page, size), page * size)
  }

  /** Index of the first row of a page. */
  function PageStart(page: PageNo, size: nat): nat {
    (page - 1) * size
  }

  /** The page that row i falls on. */
  function PageOf(i: nat, size: nat): PageNo
    requires size > 0
  {
    i / size + 1
  }

  lemma PageBounds(n: nat, page: PageNo, size: nat)
    requires size > 0
    ensures page > TotalPages(n, size) ==> (page - 1) * size >= n
    ensures page <= TotalPages(n, size) && n > 0 ==> (page - 1) * size < n
    ensures page < TotalPages(n, size) ==> page * size < n
    ensures page * size == (page - 1) * size + size
  {
    var t := TotalPages(n, size);
    if page > t {
      MulMonotone(t, page - 1, size);
    } else {
      MulMonotone(page - 1, t - 1, size);
      if page < t {
        MulMonotone(page, t - 1, size);
      }
    }
  }

  /** Pages 1 to k laid end to end. */
  function Pages<T>(xs: seq<T>, size: nat, k: nat): seq<T>
    requires size > 0
  {
    if k == 0 then [] else Pages(xs, size, k - 1) + PageSlice(xs, k, size)
  }

  lemma {:induction false} PagesArePrefix<T>(xs: seq<T>, size: nat, k: nat)
    requires size > 0
    ensures Pages(xs, size, k) == xs[..Min(k * size, |xs|)]
  {
    if k > 0 {
      PagesArePrefix(xs, size, k - 1);
      var lo, end := (k - 1) * size, Min(k * size, |xs|);
      PageSliceRange(xs, size, k);
      if lo < |xs| {
        PrefixSplit(xs, lo, end);
      }
    }
  }

  lemma PrefixSplit<T>(xs: seq<T>, lo: nat, end: nat)
    requires lo <= end <= |xs|
    ensures xs[..end] == xs[..lo] + xs[lo..end]
  {
  }

  /** Page k is the range of rows from `(k - 1) * size` up to `k * size`,
      cut off at the end of the list. */
  lemma PageSliceRange<T>(xs: seq<T>, size: nat, k: PageNo)
    requires size > 0
    ensures (k - 1) * size < |xs| ==> (k - 1) * size <= Min(k * size, |xs|)
    ensures (k - 1) * size < |xs| ==> PageSlice(xs, k, size) == xs[(k - 1) * size..Min(k * size, |xs|)]
    ensures (k - 1) * size >= |xs| ==> PageSlice(xs, k, size) == [] && Min(k * size, |xs|) == |xs|
  {
    MulMonotone(k - 1, k, size);
  }

  /** The pages 1..totalPages, laid end to end, give back the filtered list
      exactly: every row is on one page, no row is on two, order is kept. */
  lemma PagesPartition<T>(xs: seq<T>, size: nat)
    requires size > 0
    ensures Pages(xs, size, TotalPages(|xs|, size)) == xs
  {
    PagesArePrefix(xs, size, TotalPages(|xs|, size));
  }

  /** Row i of the filtered list is shown on page i / size + 1, which is a
      valid page, at position i % size. */
  lemma PageOfIndex<T>(xs: seq<T>, size: nat, i: nat)
    requires size > 0 && i < |xs|
    ensures PageOf(i, size) <= TotalPages(|xs|, size)
    ensures i % size < |PageSlice(xs, PageOf(i, size), size)|
    ensures PageSlice(xs, PageOf(i, size), size)[i % size] == xs[i]
  {
    var p := PageOf(i, size);
    var t := TotalPages(|xs|, size);
    assert i == (p - 1) * size + i % size;
    if p > t {
      MulMonotone(t, p - 1, size);
    }
  }

  /** Twenty-five rows at ten per page make three pages: two full ones and
      a last one of five rows. */
  lemma PagingExample<T>(xs: seq<T>)
    requires |xs| == 25
    ensures TotalPages(|xs|, 10) == 3
    ensures |PageSlice(xs, 1, 10)| == 10 && |PageSlice(xs, 3, 10)| == 5
    ensures PageSlice(xs, 3, 10) == xs[20..]
  {
    assert PageSlice(xs, 3, 10) == Slice(xs, 20, 30);
  }

  /** `handlePageChange`: move to `k` only when it is a valid page. */
  function GuardedPageChange(page: PageNo, k: int, total: nat): (r: PageNo)
    ensures 1 <= k <= total ==> r == k
    ensures !(1 <= k <= total) ==> r == page
  {
    if 1 <= k <= total then k else page
  }

  /** `setPage(prev => Math.max(1, prev - 1))`. */
  function ClampedPrev(page: PageNo): (r: PageNo)
    ensures page > 1 ==> r == page - 1
    ensures page == 1 ==> r == 1
  {
    Max(1, page - 1)
  }

  /** `setPage(prev => Math.min(totalPages, prev + 1))`. */
  function ClampedNext(page: PageNo, total: PageNo): (r: PageNo)
    ensures r <= total
    ensures page < total ==> r == page + 1
    ensures page >= total ==> r == total
  {
    Min(total, page + 1)
  }

  /** A valid page stays valid under the guarded setter, whatever is asked. */
  lemma GuardedKeepsRange(page: PageNo, k: int, total: nat)
    requires page <= total
    ensures 1 <= GuardedPageChange(page, k, total) <= total
    ensures GuardedPageChange(page, k, total) == page <==> !(1 <= k <= total) || k == page
  {
  }

  /** The clamped buttons keep a valid page valid, and Next pulls a page
      beyond the end back to the last page. */
  lemma ClampedKeepsRange(page: PageNo, total: PageNo)
    ensures page <= total ==> ClampedPrev(page) <= total
    ensures ClampedNext(page, total) <= total
    ensures page > total ==> ClampedNext(page, total) == total
  {
  }
}
