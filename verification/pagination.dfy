/** The pager shared by the restricted-drug table and the treatment
    guideline table: the page count, the clamped current page, the rows of
    one page, the strip of page links and the "showing x to y of n" line.
    Pages are numbered from 1; row positions are 0-based. */
module Pagination {
  import opened Seqs
  import opened Arith

  /** The rows-per-page setting: the literal `'all'` or a parsed number. */
  datatype PageSize = All | Rows(n: int)

  /** The page-size select only offers positive numbers. */
  predicate ValidSize(size: PageSize)
  {
    size.Rows? ==> size.n > 0
  }

  function Min(a: int, b: int): int
  {
    if a <= b then a else b
  }

  /** `totalPages`: one page for `'all'`, otherwise `Math.ceil(total / n)`. */
  function PageCount(total: nat, size: PageSize): (pages: nat)
    requires ValidSize(size)
    ensures size.All? ==> pages == 1
    ensures size.Rows? ==> (pages - 1) * size.n < total <= pages * size.n
    ensures size.Rows? ==> (pages == 0 <==> total == 0)
  {
    match size
    case All => 1
    case Rows(n) =>
      var p := CeilDiv(total, n);
      assert p == 0 <==> total == 0 by {
        if p > 0 {
          MulLe(0, p - 1, n);
        }
      }
      p
  }

  /** The current page after a re-render: a page past the end falls back
      to the last page, and there is no page 0 unless there are no pages.
      The source does not raise a page below 1; its links never ask for one. */
  function ClampPage(page: int, pages: nat): (p: int)
    ensures p == page || p == pages
    ensures pages == 0 ==> p == 0
    ensures pages > 0 ==> p <= pages
    ensures page >= 1 && pages > 0 ==> 1 <= p <= pages
    ensures page <= pages ==> (pages == 0 || p == page)
  {
    if page > pages && pages > 0 then pages
    else if pages == 0 then 0
    else page
  }

  /** JavaScript's index normalisation in `Array.prototype.slice`: a
      negative index counts back from the end; both ends are clamped to
      the array. */
  function SliceIndex(x: int, len: nat): (k: nat)
    ensures k <= len
    ensures 0 <= x <= len ==> k == x
    ensures x >= len ==> k == len
    ensures x < 0 ==> k == if len + x < 0 then 0 else len + x
  {
    if x < 0 then (if len + x < 0 then 0 else len + x)
    else if x > len then len
    else x
  }

  /** Normalising never spreads two indices further apart. */
  lemma SliceIndexSpread(x: int, y: int, len: nat)
    requires x <= y
    ensures SliceIndex(y, len) - SliceIndex(x, len) <= y - x
  {
  }

  /** `Array.prototype.slice(start, end)`. */
  function JsSlice<T>(s: seq<T>, start: int, end: int): (r: seq<T>)
    ensures 0 <= start <= end <= |s| ==> r == s[start..end]
    ensures start <= end ==> |r| <= end - start
    ensures 0 <= end <= start ==> r == []
    ensures forall i :: 0 <= i < |r| ==> r[i] in s
  {
    var a, b := SliceIndex(start, |s|), SliceIndex(end, |s|);
    if start <= end then
      SliceIndexSpread(start, end, |s|);
      if a < b then s[a..b] else assert s[0..0] == []; []
    else if a < b then s[a..b] else assert s[0..0] == []; []
  }

  /** `a <= b` survives multiplication by a non-negative factor. */
  lemma MulLe(a: int, b: int, n: int)
    requires a <= b && n >= 0
    ensures a * n <= b * n
  {
    assert b * n - a * n == (b - a) * n;
  }

  /** The drug table's page: every row for `'all'`, otherwise
      `slice((page - 1) * n, page * n)`. */
  function PageRows<T>(rows: seq<T>, size: PageSize, page: int): (r: seq<T>)
    requires ValidSize(size)
    ensures size.All? ==> r == rows
    ensures size.Rows? ==> |r| <= size.n
    ensures forall i :: 0 <= i < |r| ==> r[i] in rows
    ensures size.Rows? && page >= 1 ==>
      r == rows[Min((page - 1) * size.n, |rows|)..Min(page * size.n, |rows|)]
  {
    match size
    case All => rows
    case Rows(n) =>
      var start, end := (page - 1) * n, page * n;
      assert end == start + n;
      assert page >= 1 ==> start >= 0;
      JsSlice(rows, start, end)
  }

  /** The guideline table's page: `slice(startIndex, endIndex)` where the
      end is the row count for `'all'` and the start, `(page - 1) * 'all'`,
      is NaN, which `slice` reads as 0. */
  function GuidelinePageRows<T>(rows: seq<T>, size: PageSize, page: int): (r: seq<T>)
    requires ValidSize(size)
    ensures size.Rows? ==> |r| <= size.n
  {
    match size
    case All => JsSlice(rows, 0, |rows|)
    case Rows(n) =>
      var start := (page - 1) * n;
      JsSlice(rows, start, start + n)
  }

  /** The two tables cut pages identically, including the `'all'` case
      where the guideline table goes through a NaN start index. */
  lemma GuidelinePagesMatchDrugPages<T>(rows: seq<T>, size: PageSize, page: int)
    requires ValidSize(size)
    ensures GuidelinePageRows(rows, size, page) == PageRows(rows, size, page)
  {
    match size
    case All =>
      assert rows[0..|rows|] == rows;
    case Rows(n) =>
      assert (page - 1) * n + n == page * n;
  }

  lemma PageRowsSlice<T>(rows: seq<T>, n: int, p: int, start: int, end: int)
    requires n > 0 && p >= 1 && start == (p - 1) * n && end == start + n
    ensures PageRows(rows, Rows(n), p) == rows[Min(start, |rows|)..Min(end, |rows|)]
  {
    assert p * n == end;
  }

  /** Pages `p` to `last`, in order. */
  function PagesFrom<T>(rows: seq<T>, n: int, p: int, last: int): (pages: seq<seq<T>>)
    requires n > 0
    ensures |pages| == if p <= last then last - p + 1 else 0
    decreases last - p
  {
    if p > last then [] else [PageRows(rows, Rows(n), p)] + PagesFrom(rows, n, p + 1, last)
  }

  /** Every page of the table, first to last. */
  function Paginate<T>(rows: seq<T>, n: int): (pages: seq<seq<T>>)
    requires n > 0
    ensures |pages| == PageCount(|rows|, Rows(n))
  {
    PagesFrom(rows, n, 1, PageCount(|rows|, Rows(n)))
  }

  lemma {:induction false} PagesFromCover<T>(rows: seq<T>, n: int, p: int, last: int, start: int)
    requires n > 0 && p >= 1 && 0 <= start == (p - 1) * n
    requires |rows| <= last * n
    ensures Flatten(PagesFrom(rows, n, p, last)) == rows[Min(start, |rows|)..]
    decreases last - p
  {
    if p > last {
      PastLastPage(rows, n, p, last, start);
    } else {
      assert (p + 1 - 1) * n == start + n;
      PagesFromCover(rows, n, p + 1, last, start + n);
      PageThenRest(rows, n, p, last, start);
    }
  }

  /** One step of the cover: page `p` followed by the pages after it. */
  lemma PageThenRest<T>(rows: seq<T>, n: int, p: int, last: int, start: int)
    requires n > 0 && 1 <= p <= last && 0 <= start == (p - 1) * n
    requires Flatten(PagesFrom(rows, n, p + 1, last)) == rows[Min(start + n, |rows|)..]
    ensures Flatten(PagesFrom(rows, n, p, last)) == rows[Min(start, |rows|)..]
  {
    var end := start + n;
    var a, b := Min(start, |rows|), Min(end, |rows|);
    var here := PageRows(rows, Rows(n), p);
    var rest := PagesFrom(rows, n, p + 1, last);
    PageRowsSlice(rows, n, p, start, end);
    assert PagesFrom(rows, n, p, last) == [here] + rest;
    assert ([here] + rest)[1..] == rest;
    assert Flatten([here] + rest) == here + Flatten(rest);
    SliceJoin(rows, here, Flatten(rest), a, b);
  }

  lemma PastLastPage<T>(rows: seq<T>, n: int, p: int, last: int, start: int)
    requires n > 0 && p > last && start == (p - 1) * n
    requires |rows| <= last * n
    ensures Flatten(PagesFrom(rows, n, p, last)) == rows[Min(start, |rows|)..]
  {
    MulLe(last, p - 1, n);
    assert rows[|rows|..] == [];
  }

  lemma SliceJoin<T>(s: seq<T>, x: seq<T>, y: seq<T>, a: int, b: int)
    requires 0 <= a <= b <= |s| && x == s[a..b] && y == s[b..]
    ensures x + y == s[a..]
  {
  }

  /** Reading the pages in order gives back every row exactly once. */
  lemma PaginateCoversRows<T>(rows: seq<T>, n: int)
    requires n > 0
    ensures Flatten(Paginate(rows, n)) == rows
  {
    var last := PageCount(|rows|, Rows(n));
    PagesFromCover(rows, n, 1, last, 0);
    assert rows[0..] == rows;
  }

  /** Every page up to the page count holds rows, and all but the last are
      full; past the last page a page is empty. */
  lemma PageFill<T>(rows: seq<T>, n: int, page: int)
    requires n > 0 && page >= 1
    ensures page <= PageCount(|rows|, Rows(n)) ==> |PageRows(rows, Rows(n), page)| > 0
    ensures page < PageCount(|rows|, Rows(n)) ==> |PageRows(rows, Rows(n), page)| == n
    ensures page > PageCount(|rows|, Rows(n)) ==> PageRows(rows, Rows(n), page) == []
  {
    var pages := PageCount(|rows|, Rows(n));
    var start, end := (page - 1) * n, page * n;
    assert end == start + n;
    MulLe(0, page - 1, n);
    if page <= pages {
      MulLe(page - 1, pages - 1, n);
      assert start < |rows|;
    }
    if page < pages {
      MulLe(page, pages - 1, n);
      assert end < |rows|;
    }
    if page > pages {
      MulLe(pages, page - 1, n);
      assert start >= |rows|;
    }
  }

  /** The table's "no data" branch: the clamped page of a request for a
      page `>= 1` is empty exactly when there are no rows at all. */
  lemma ClampedPageIsEmptyOnlyWithoutRows<T>(rows: seq<T>, size: PageSize, page: int)
    requires ValidSize(size) && page >= 1
    ensures PageRows(rows, size, ClampPage(page, PageCount(|rows|, size))) == [] <==> |rows| == 0
  {
    match size
    case All =>
    case Rows(n) =>
      var pages := PageCount(|rows|, size);
      var p := ClampPage(page, pages);
      if |rows| > 0 {
        PageFill(rows, n, p);
      }
  }

  /** The links window: five consecutive pages around the current one,
      shifted to stay inside `1..pages`; all pages when there are at most five. */
  datatype Window = Window(first: int, last: int)

  function PageWindow(pages: int, current: int): (w: Window)
    ensures pages <= 5 ==> w == Window(1, pages)
    ensures pages > 5 ==> w.last - w.first == 4 && 1 <= w.first && w.last <= pages
    ensures pages > 5 && 1 <= current <= pages ==> w.first <= current <= w.last
    ensures pages > 5 && 3 <= current <= pages - 2 ==> w == Window(current - 2, current + 2)
  {
    if pages <= 5 then Window(1, pages)
    else if current <= 3 then Window(1, 5)
    else if current + 2 >= pages then Window(pages - 4, pages)
    else Window(current - 2, current + 2)
  }

  /** What the pager shows: nothing, or previous/next buttons (possibly
      disabled), a link to page 1 and an ellipsis before the window, the
      window's links, and an ellipsis and a link to the last page after it. */
  datatype Controls =
    | Hidden
    | Shown(prevDisabled: bool, firstLink: bool, leadingGap: bool, window: Window,
            trailingGap: bool, lastLink: bool, nextDisabled: bool)

  /** `renderPaginationControls` / `updatePaginationGuidelines`. */
  function PaginationControls(pages: int, current: int, size: PageSize): (c: Controls)
    ensures c.Hidden? <==> pages <= 1 && !size.All?
    ensures c.Shown? ==> c.window == PageWindow(pages, current)
    ensures c.Shown? ==> (c.prevDisabled <==> current <= 1) && (c.nextDisabled <==> current >= pages)
    ensures c.Shown? ==> (c.leadingGap ==> c.firstLink) && (c.trailingGap ==> c.lastLink)
  {
    if pages <= 1 && !size.All? then Hidden
    else
      var w := PageWindow(pages, current);
      Shown(current <= 1, w.first > 1, w.first > 2, w,
            w.last < pages - 1, w.last < pages, current >= pages)
  }

  /** The page numbers that appear as links, left to right. */
  function LinkedPages(c: Controls, pages: int): (links: seq<int>)
  {
    match c
    case Hidden => []
    case Shown(_, firstLink, _, w, _, lastLink, _) => Strip(firstLink, w.first, w.last, lastLink, pages)
  }

  /** Page 1 if linked, the window's pages, and the last page if linked. */
  function Strip(firstLink: bool, first: int, last: int, lastLink: bool, pages: int): (links: seq<int>)
  {
    (if firstLink then [1] else [])
    + seq(if last >= first then last - first + 1 else 0, i => first + i)
    + (if lastLink then [pages] else [])
  }

  lemma StripShape(firstLink: bool, first: int, last: int, lastLink: bool, pages: int)
    requires 1 <= first <= last <= pages
    requires firstLink <==> first > 1
    requires lastLink <==> last < pages
    ensures var links := Strip(firstLink, first, last, lastLink, pages);
      && StrictlyIncreasing(links)
      && (forall q :: q in links <==> q == 1 || first <= q <= last || q == pages)
  {
    var head: seq<int> := if firstLink then [1] else [];
    var mid := seq(last - first + 1, i => first + i);
    var tail: seq<int> := if lastLink then [pages] else [];
    var links := Strip(firstLink, first, last, lastLink, pages);
    assert links == head + mid + tail;
    assert forall q :: q in mid <==> first <= q <= last by {
      forall q | first <= q <= last
        ensures q in mid
      {
        assert mid[q - first] == q;
      }
    }
    assert mid[0] == first && mid[|mid| - 1] == last;
    forall i, j | 0 <= i < j < |links|
      ensures links[i] < links[j]
    {
      if i < |head| {
        if j < |head| + |mid| {
          assert links[j] == mid[j - |head|];
        }
      } else if i < |head| + |mid| {
        assert links[i] == mid[i - |head|];
        if j < |head| + |mid| {
          assert links[j] == mid[j - |head|];
        }
      }
    }
  }

  /** With the current page in range, the link strip is in increasing page
      order, stays inside `1..pages`, always offers the first, last and
      current page, and every page without a link sits behind an ellipsis;
      an ellipsis always hides at least one page. */
  lemma StripListsEveryPage(pages: int, current: int, size: PageSize)
    requires 1 <= current <= pages
    requires pages > 1 || size.All?
    ensures PaginationControls(pages, current, size).Shown?
    ensures var c := PaginationControls(pages, current, size);
      && (c.firstLink <==> c.window.first > 1) && (c.leadingGap <==> c.window.first > 2)
      && (c.lastLink <==> c.window.last < pages) && (c.trailingGap <==> c.window.last < pages - 1)
    ensures var c := PaginationControls(pages, current, size);
      var links := LinkedPages(c, pages);
      && StrictlyIncreasing(links)
      && (forall i :: 0 <= i < |links| ==> 1 <= links[i] <= pages)
      && 1 in links && pages in links && current in links
      && (forall q :: 1 <= q <= pages && q !in links ==>
            (c.leadingGap && 1 < q < c.window.first) || (c.trailingGap && c.window.last < q < pages))
      && (c.leadingGap ==> 2 !in links)
      && (c.trailingGap ==> pages - 1 !in links)
  {
    var c := PaginationControls(pages, current, size);
    var w := c.window;
    StripShape(c.firstLink, w.first, w.last, c.lastLink, pages);
    var links := LinkedPages(c, pages);
    assert forall i :: 0 <= i < |links| ==> links[i] in links;
  }

  predicate StrictlyIncreasing(s: seq<int>)
  {
    forall i, j :: 0 <= i < j < |s| ==> s[i] < s[j]
  }

  /** The line under a table. */
  datatype EntryInfo =
    | NoData
    | ShowingAll(total: nat)
    | Showing(first: int, last: int, total: nat)

  /** `renderPaginationInfo` / `updatePaginationInfoGuidelines`: "no data"
      for an empty table, "all n" for `'all'`, otherwise the 1-based
      positions of the page's first and last row, the last one cut at
      the row count. */
  function EntryRange(total: nat, page: int, size: PageSize): (e: EntryInfo)
    ensures e.NoData? <==> total == 0
    ensures e.ShowingAll? <==> total > 0 && size.All?
    ensures e.Showing? ==> e.total == total && e.last <= total
  {
    if total == 0 then NoData
    else match size
      case All => ShowingAll(total)
      case Rows(n) =>
        var last := page * n;
        Showing((page - 1) * n + 1, if last > total then total else last, total)
  }

  /** The line agrees with the rows shown: for a page in range it names
      the 1-based positions of the page's first and last row, which are the
      bounds the page is cut at, and "all n" goes with the whole table. */
  lemma EntryRangeDescribesPage<T>(rows: seq<T>, size: PageSize, page: int)
    requires ValidSize(size) && |rows| > 0
    requires 1 <= page <= PageCount(|rows|, size)
    ensures var e := EntryRange(|rows|, page, size);
      && (e.ShowingAll? ==> PageRows(rows, size, page) == rows && e.total == |rows|)
      && (e.Showing? ==>
            && size.Rows?
            && e.first - 1 == Min((page - 1) * size.n, |rows|)
            && e.last == Min(page * size.n, |rows|)
            && 1 <= e.first <= e.last <= |rows|
            && PageRows(rows, size, page) == rows[e.first - 1..e.last])
  {
    match size
    case All =>
    case Rows(n) =>
      var pages := PageCount(|rows|, size);
      var start, end := (page - 1) * n, page * n;
      assert end == start + n;
      MulLe(0, page - 1, n);
      MulLe(page - 1, pages - 1, n);
      assert 0 <= start < |rows|;
  }
}
