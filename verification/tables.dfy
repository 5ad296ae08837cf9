/** One render of each table on the pregnancy and lactation page: the
    rows chosen by the selection, the clamped page, the rows of that
    page, the pager, the entry line and, for the drug table, the
    footnote numbering. */
module Tables {
  import opened Seqs
  import opened Pagination
  import opened Selection
  import opened References

  /** What `renderTable` puts on screen. */
  datatype DrugPage = DrugPage(rows: seq<Drug>, page: int, controls: Controls, info: EntryInfo, notes: Numbering)

  function CitedBy(d: Drug): seq<string>
  {
    d.references
  }

  /** The footnotes of a page: every citation of every row marked with
      the number of its entry in the page's reference list. */
  function Footnotes(rows: seq<Drug>): (notes: Numbering)
    ensures NoDuplicates(notes.list)
    ensures |notes.marks| == |rows|
    ensures forall i :: 0 <= i < |rows| ==> |notes.marks[i]| == |rows[i].references|
    ensures forall i, j :: 0 <= i < |rows| && 0 <= j < |rows[i].references| ==>
      1 <= notes.marks[i][j] <= |notes.list| && notes.list[notes.marks[i][j] - 1] == rows[i].references[j]
    ensures forall t :: t in notes.list <==> exists i :: 0 <= i < |rows| && t in rows[i].references
  {
    var notes := NumberReferences(Map(CitedBy, rows));
    FootnotesOfRows(rows, notes);
    notes
  }

  lemma FootnotesOfRows(rows: seq<Drug>, notes: Numbering)
    requires notes == NumberReferences(Map(CitedBy, rows))
    ensures NoDuplicates(notes.list)
    ensures |notes.marks| == |rows|
    ensures forall i :: 0 <= i < |rows| ==> |notes.marks[i]| == |rows[i].references|
    ensures forall i, j :: 0 <= i < |rows| && 0 <= j < |rows[i].references| ==>
      1 <= notes.marks[i][j] <= |notes.list| && notes.list[notes.marks[i][j] - 1] == rows[i].references[j]
    ensures forall t :: t in notes.list <==> exists i :: 0 <= i < |rows| && t in rows[i].references
  {
    var cited := Map(CitedBy, rows);
    MarksOfRows(rows, cited, notes);
    ListOfRows(rows, cited, notes);
  }

  lemma MarksOfRows(rows: seq<Drug>, cited: seq<seq<string>>, notes: Numbering)
    requires cited == Map(CitedBy, rows) && notes == NumberReferences(cited)
    ensures |notes.marks| == |rows|
    ensures forall i :: 0 <= i < |rows| ==> |notes.marks[i]| == |rows[i].references|
    ensures forall i, j :: 0 <= i < |rows| && 0 <= j < |rows[i].references| ==>
      1 <= notes.marks[i][j] <= |notes.list| && notes.list[notes.marks[i][j] - 1] == rows[i].references[j]
  {
    assert forall i :: 0 <= i < |rows| ==> cited[i] == rows[i].references;
  }

  lemma ListOfRows(rows: seq<Drug>, cited: seq<seq<string>>, notes: Numbering)
    requires cited == Map(CitedBy, rows) && notes == NumberReferences(cited)
    ensures forall t :: t in notes.list <==> exists i :: 0 <= i < |rows| && t in rows[i].references
  {
    var list := notes.list;
    forall t | t in list
      ensures exists i :: 0 <= i < |rows| && t in rows[i].references
    {
      var i :| 0 <= i < |cited| && t in cited[i];
      assert t in rows[i].references;
    }
    forall t | exists i :: 0 <= i < |rows| && t in rows[i].references
      ensures t in list
    {
      var i :| 0 <= i < |rows| && t in rows[i].references;
      assert t in cited[i];
    }
  }

  /** `renderTable(filterNames, page)`.  When the page comes out empty the
      source shows its "no drug found" row and renders the pager for zero
      pages at page 0, the "no data" line and no references. */
  function RenderDrugTable(drugs: seq<Drug>, filterNames: seq<string>, size: PageSize, page: int): (v: DrugPage)
    requires ValidSize(size)
    ensures var shown := FilterDrugs(drugs, filterNames);
      && (page >= 1 ==> (v.rows == [] <==> shown == []))
      && (forall i :: 0 <= i < |v.rows| ==> v.rows[i] in shown)
      && (v.rows == [] ==> v.info == NoData && v.notes.list == [] && v.controls == PaginationControls(0, 0, size))
      && (page >= 1 && v.rows != [] && v.info.ShowingAll? ==> v.rows == shown)
      && (page >= 1 && v.rows != [] && v.info.Showing? ==>
            1 <= v.info.first <= v.info.last <= |shown| && v.rows == shown[v.info.first - 1..v.info.last])
      && (page >= 1 && v.rows != [] ==> 1 <= v.page <= PageCount(|shown|, size))
      && v.page == ClampPage(page, PageCount(|shown|, size))
      && v.rows == PageRows(shown, size, v.page)
      && (v.rows != [] ==>
            && v.info == EntryRange(|shown|, v.page, size)
            && v.controls == PaginationControls(PageCount(|shown|, size), v.page, size))
      && v.notes == Footnotes(v.rows)
  {
    var shown := FilterDrugs(drugs, filterNames);
    var pages := PageCount(|shown|, size);
    var current := ClampPage(page, pages);
    var rows := PageRows(shown, size, current);
    ClampedPageFacts(shown, size, page);
    if |rows| == 0 then
      assert Footnotes([]) == Numbering([], []);
      DrugPage([], current, PaginationControls(0, 0, size), EntryRange(0, 0, size), Numbering([], []))
    else
      DrugPage(rows, current, PaginationControls(pages, current, size), EntryRange(|shown|, current, size), Footnotes(rows))
  }

  /** The clamped page is empty only for an empty table, lies in range
      otherwise, and the entry line describes its rows. */
  lemma ClampedPageFacts<T>(shown: seq<T>, size: PageSize, page: int)
    requires ValidSize(size)
    ensures var pages := PageCount(|shown|, size);
      var current := ClampPage(page, pages);
      var rows := PageRows(shown, size, current);
      var e := EntryRange(|shown|, current, size);
      && (page >= 1 ==> (rows == [] <==> shown == []))
      && (page >= 1 && rows != [] ==> 1 <= current <= pages && |shown| > 0)
      && (page >= 1 && rows != [] && e.ShowingAll? ==> rows == shown)
      && (page >= 1 && rows != [] && e.Showing? ==>
            1 <= e.first <= e.last <= |shown| && rows == shown[e.first - 1..e.last])
  {
    var pages := PageCount(|shown|, size);
    var current := ClampPage(page, pages);
    var rows := PageRows(shown, size, current);
    if page >= 1 {
      ClampedPageIsEmptyOnlyWithoutRows(shown, size, page);
      if rows != [] {
        if size.Rows? {
          PageFill(shown, size.n, current);
        }
        EntryRangeDescribesPage(shown, size, current);
      }
    }
  }

  /** What `renderTreatmentTable` puts on screen. */
  datatype GuidelinePage = GuidelinePage(rows: seq<Guideline>, page: int, controls: Controls, info: EntryInfo)

  /** `filterTreatmentTable` and then `renderTreatmentTable`: the rows
      mentioning a selected disease, in the filter's order (the column
      sort in between is not modelled), paged.  Unlike the drug table, the
      pager is always drawn for the full page count. */
  function RenderGuidelineTable(items: seq<Guideline>, diseases: seq<string>, size: PageSize, page: int): (v: GuidelinePage)
    requires ValidSize(size)
    ensures var shown := FilterGuidelines(items, diseases);
      && (page >= 1 ==> (v.rows == [] <==> shown == []))
      && (forall i :: 0 <= i < |v.rows| ==> v.rows[i] in shown)
      && (v.info.NoData? <==> shown == [])
      && (page >= 1 && v.rows != [] && v.info.ShowingAll? ==> v.rows == shown)
      && (page >= 1 && v.rows != [] && v.info.Showing? ==>
            1 <= v.info.first <= v.info.last <= |shown| && v.rows == shown[v.info.first - 1..v.info.last])
      && v.page == ClampPage(page, PageCount(|shown|, size))
      && v.rows == GuidelinePageRows(shown, size, v.page)
      && v.info == EntryRange(|shown|, v.page, size)
      && v.controls == PaginationControls(PageCount(|shown|, size), v.page, size)
  {
    var shown := FilterGuidelines(items, diseases);
    var pages := PageCount(|shown|, size);
    var current := ClampPage(page, pages);
    var rows := GuidelinePageRows(shown, size, current);
    GuidelinePagesMatchDrugPages(shown, size, current);
    ClampedPageFacts(shown, size, page);
    GuidelinePage(rows, current, PaginationControls(pages, current, size), EntryRange(|shown|, current, size))
  }
}
