/** The pagination window of the search page (`zubbi/helpers.py`): the
    first page, a window of pages around the current one, and the last
    page, as groups the template separates with gaps. */
module Helpers {

  /** The window reaches this many pages to either side of the current one
      unless the caller says otherwise. */
  const DefaultStepSize := 2

  datatype Pagination = Pagination(current: int, lastPage: int, steps: seq<seq<int>>)

  /** `range(lo, hi)`. */
  function Range(lo: int, hi: int): (r: seq<int>)
    ensures |r| == if lo < hi then hi - lo else 0
    ensures forall i :: 0 <= i < |r| ==> r[i] == lo + i
    decreases hi - lo
  {
    if lo < hi then [lo] + Range(lo + 1, hi) else []
  }

  /** Where the window ends: `step_size` after the current page, or at the
      last page when that leaves no gap of two pages or more. */
  function WindowEnd(current: int, lastPage: int, stepSize: int): int {
    if current + stepSize < lastPage - 1 then current + stepSize else lastPage
  }

  /** Where the window starts: `step_size` before the current page, or at
      the first page when that leaves no gap of two pages or more. */
  function WindowStart(current: int, stepSize: int): int {
    if current > stepSize + 1 then current - stepSize else 0
  }

  /** `calculate_pagination`: an optional `[0]` group, the window, and an
      optional `[last_page]` group. */
  function CalculatePagination(current: int, lastPage: int, stepSize: int): (p: Pagination)
    ensures p.current == current && p.lastPage == lastPage
    ensures |p.steps| == 1 + (if current > stepSize + 1 then 1 else 0) + (if current + stepSize < lastPage - 1 then 1 else 0)
    ensures current > stepSize + 1 ==> p.steps[0] == [0]
    ensures current + stepSize < lastPage - 1 ==> p.steps[|p.steps| - 1] == [lastPage]
    ensures var mid := if current > stepSize + 1 then 1 else 0;
            p.steps[mid] == Range(WindowStart(current, stepSize), WindowEnd(current, lastPage, stepSize) + 1)
  {
    var end := WindowEnd(current, lastPage, stepSize);
    var start := WindowStart(current, stepSize);
    var head: seq<seq<int>> := if current > stepSize + 1 then [[0]] else [];
    var tail: seq<seq<int>> := if end != lastPage then [[lastPage]] else [];
    Pagination(current, lastPage, head + [Range(start, end + 1)] + tail)
  }

  /** All pages of the groups, in order. */
  function Flatten(groups: seq<seq<int>>): seq<int>
    decreases |groups|
  {
    if |groups| == 0 then [] else groups[0] + Flatten(groups[1..])
  }

  lemma {:induction false} FlattenAppend(xs: seq<seq<int>>, ys: seq<seq<int>>)
    ensures Flatten(xs + ys) == Flatten(xs) + Flatten(ys)
    decreases |xs|
  {
    if |xs| == 0 {
      assert xs + ys == ys;
    } else {
      assert (xs + ys)[0] == xs[0];
      assert (xs + ys)[1..] == xs[1..] + ys;
      FlattenAppend(xs[1..], ys);
      assert xs[0] + (Flatten(xs[1..]) + Flatten(ys)) == (xs[0] + Flatten(xs[1..])) + Flatten(ys);
    }
  }

  lemma FlattenOne(g: seq<int>)
    ensures Flatten([g]) == g
  {
    assert [g][1..] == [];
    assert g + [] == g;
  }

  predicate StrictlyIncreasing(s: seq<int>) {
    forall i, j :: 0 <= i < j < |s| ==> s[i] < s[j]
  }

  /** A page is shown: the first, the last, or one within `stepSize` of the
      current page. */
  predicate Shown(x: int, current: int, lastPage: int, stepSize: int) {
    0 <= x <= lastPage && (x == 0 || x == lastPage || current - stepSize <= x <= current + stepSize)
  }

  /** The `[0]` group's page, if there is one. */
  function LeadPages(current: int, stepSize: int): seq<int> {
    if current > stepSize + 1 then [0] else []
  }

  /** The `[last_page]` group's page, if there is one. */
  function TailPages(current: int, lastPage: int, stepSize: int): seq<int> {
    if WindowEnd(current, lastPage, stepSize) != lastPage then [lastPage] else []
  }

  /** The listed pages are the lead page, the window and the tail page. */
  lemma PaginationFlat(current: int, lastPage: int, stepSize: int)
    ensures Flatten(CalculatePagination(current, lastPage, stepSize).steps)
         == LeadPages(current, stepSize)
            + Range(WindowStart(current, stepSize), WindowEnd(current, lastPage, stepSize) + 1)
            + TailPages(current, lastPage, stepSize)
  {
    var end := WindowEnd(current, lastPage, stepSize);
    var start := WindowStart(current, stepSize);
    var head: seq<seq<int>> := if current > stepSize + 1 then [[0]] else [];
    var tail: seq<seq<int>> := if end != lastPage then [[lastPage]] else [];
    var mid := Range(start, end + 1);
    assert head + [mid] + tail == CalculatePagination(current, lastPage, stepSize).steps;
    FlattenAppend(head + [mid], tail);
    FlattenAppend(head, [mid]);
    FlattenOne(mid);
    if current > stepSize + 1 { FlattenOne([0]); } else { assert Flatten(head) == []; }
    if end != lastPage { FlattenOne([lastPage]); } else { assert Flatten(tail) == []; }
  }

  /** Each listed page by position: the lead page, then the window, then
      the tail page. */
  lemma PageAt(current: int, lastPage: int, stepSize: int, k: int)
    requires 0 <= k < |LeadPages(current, stepSize) + Range(WindowStart(current, stepSize), WindowEnd(current, lastPage, stepSize) + 1) + TailPages(current, lastPage, stepSize)|
    ensures var h := LeadPages(current, stepSize);
            var start := WindowStart(current, stepSize);
            var mid := Range(start, WindowEnd(current, lastPage, stepSize) + 1);
            var pages := h + mid + TailPages(current, lastPage, stepSize);
            pages[k] == if k < |h| then 0 else if k < |h| + |mid| then start + (k - |h|) else lastPage
  {
  }

  /** For a current page within range the pages listed are strictly
      increasing. */
  lemma PaginationIncreasing(current: int, lastPage: int, stepSize: int)
    requires 0 <= current <= lastPage && 0 <= stepSize
    ensures StrictlyIncreasing(Flatten(CalculatePagination(current, lastPage, stepSize).steps))
  {
    PaginationFlat(current, lastPage, stepSize);
    var pages := LeadPages(current, stepSize)
                 + Range(WindowStart(current, stepSize), WindowEnd(current, lastPage, stepSize) + 1)
                 + TailPages(current, lastPage, stepSize);
    forall i, j | 0 <= i < j < |pages| ensures pages[i] < pages[j] {
      PagePairIncreasing(current, lastPage, stepSize, i, j);
    }
  }

  /** Two listed pages compare as their positions do. */
  lemma PagePairIncreasing(current: int, lastPage: int, stepSize: int, i: int, j: int)
    requires 0 <= current <= lastPage && 0 <= stepSize
    requires 0 <= i < j < |LeadPages(current, stepSize) + Range(WindowStart(current, stepSize), WindowEnd(current, lastPage, stepSize) + 1) + TailPages(current, lastPage, stepSize)|
    ensures var pages := LeadPages(current, stepSize)
                         + Range(WindowStart(current, stepSize), WindowEnd(current, lastPage, stepSize) + 1)
                         + TailPages(current, lastPage, stepSize);
            pages[i] < pages[j]
  {
    var h := LeadPages(current, stepSize);
    var start := WindowStart(current, stepSize);
    var end := WindowEnd(current, lastPage, stepSize);
    var mid := Range(start, end + 1);
    assert |h| == 1 ==> start > 0;
    assert |h + mid + TailPages(current, lastPage, stepSize)| > |h| + |mid| ==> end < lastPage;
    PageAt(current, lastPage, stepSize, i);
    PageAt(current, lastPage, stepSize, j);
  }

  /** The pages listed are exactly the first page, the last page and the
      pages within `stepSize` of the current one; in particular the current
      page is always listed. */
  lemma PaginationPages(current: int, lastPage: int, stepSize: int)
    requires 0 <= current <= lastPage && 0 <= stepSize
    ensures var pages := Flatten(CalculatePagination(current, lastPage, stepSize).steps);
            && (forall i :: 0 <= i < |pages| ==> Shown(pages[i], current, lastPage, stepSize))
            && (forall x :: Shown(x, current, lastPage, stepSize) ==> x in pages)
            && current in pages
  {
    PaginationFlat(current, lastPage, stepSize);
    var h := LeadPages(current, stepSize);
    var start := WindowStart(current, stepSize);
    var end := WindowEnd(current, lastPage, stepSize);
    var mid := Range(start, end + 1);
    var pages := h + mid + TailPages(current, lastPage, stepSize);
    forall i | 0 <= i < |pages| ensures Shown(pages[i], current, lastPage, stepSize) {
      PageAt(current, lastPage, stepSize, i);
    }
    forall x | Shown(x, current, lastPage, stepSize) ensures x in pages {
      if start <= x <= end {
        PageAt(current, lastPage, stepSize, |h| + x - start);
      } else if x == 0 {
        PageAt(current, lastPage, stepSize, 0);
      } else {
        PageAt(current, lastPage, stepSize, |pages| - 1);
      }
    }
  }
}
