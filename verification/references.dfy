/** Footnotes of the restricted-drug table: the references cited by the
    rows on the current page are listed once each, in order of first
    citation, and every citation in a row is marked with the number of
    its entry in that list (1-based, as in the `ref-<n>` anchors). */
module References {
  import opened Seqs

  /** The reference list so far and the numbers given to one row's citations. */
  datatype Citing = Citing(list: seq<string>, nums: seq<int>)

  /** `r` extends `list` with new texts only, repeats nothing, and marks
      each of `texts` with the 1-based number of its entry. */
  ghost predicate Numbers(list: seq<string>, texts: seq<string>, r: Citing)
  {
    && |r.list| >= |list| && r.list[..|list|] == list
    && NoDuplicates(r.list)
    && |r.nums| == |texts|
    && (forall j :: 0 <= j < |texts| ==> 1 <= r.nums[j] <= |r.list| && r.list[r.nums[j] - 1] == texts[j])
    && (forall t :: t in r.list <==> t in list || t in texts)
  }

  /** The reference list after citing `texts` in order: each text not yet
      listed is appended. */
  function Listed(list: seq<string>, texts: seq<string>): seq<string>
  {
    if |texts| == 0 then list
    else
      var prev := Listed(list, texts[..|texts| - 1]);
      var t := texts[|texts| - 1];
      if t in prev then prev else prev + [t]
  }

  /** The inner `forEach` over one row's references: a text already listed
      gets the number of its entry, a new text is appended and gets the
      next number (the source's `refCounter`, which is always the list
      length plus one). */
  function Cite(list: seq<string>, texts: seq<string>): (r: Citing)
    requires NoDuplicates(list)
    ensures Numbers(list, texts, r)
    ensures r.list == Listed(list, texts)
  {
    if |texts| == 0 then Citing(list, [])
    else
      var init, t := texts[..|texts| - 1], texts[|texts| - 1];
      var prev := Cite(list, init);
      if t in prev.list then
        var r := Citing(prev.list, prev.nums + [IndexOf(prev.list, t) + 1]);
        CiteListed(list, texts, prev, r);
        r
      else
        var r := Citing(prev.list + [t], prev.nums + [|prev.list| + 1]);
        CiteNew(list, texts, prev, r);
        r
  }

  /** A text already in the list reuses its entry's number. */
  lemma CiteListed(list: seq<string>, texts: seq<string>, prev: Citing, r: Citing)
    requires |texts| > 0
    requires var t := texts[|texts| - 1];
      Numbers(list, texts[..|texts| - 1], prev) && t in prev.list
    requires r == Citing(prev.list, prev.nums + [IndexOf(prev.list, texts[|texts| - 1]) + 1])
    ensures Numbers(list, texts, r)
  {
    var init, t := texts[..|texts| - 1], texts[|texts| - 1];
    assert texts == init + [t];
    assert forall u :: u in texts <==> u in init || u == t;
    forall j | 0 <= j < |texts|
      ensures 1 <= r.nums[j] <= |r.list| && r.list[r.nums[j] - 1] == texts[j]
    {
      if j < |init| {
        assert r.nums[j] == prev.nums[j] && texts[j] == init[j];
      }
    }
  }

  /** A new text is appended and numbered with the new list length. */
  lemma CiteNew(list: seq<string>, texts: seq<string>, prev: Citing, r: Citing)
    requires |texts| > 0
    requires var t := texts[|texts| - 1];
      Numbers(list, texts[..|texts| - 1], prev) && t !in prev.list
    requires r == Citing(prev.list + [texts[|texts| - 1]], prev.nums + [|prev.list| + 1])
    ensures Numbers(list, texts, r)
  {
    var init, t := texts[..|texts| - 1], texts[|texts| - 1];
    assert texts == init + [t];
    assert forall u :: u in texts <==> u in init || u == t;
    assert r.list[..|list|] == prev.list[..|list|];
    forall j | 0 <= j < |texts|
      ensures 1 <= r.nums[j] <= |r.list| && r.list[r.nums[j] - 1] == texts[j]
    {
      if j < |init| {
        assert r.nums[j] == prev.nums[j] && texts[j] == init[j];
        assert r.list[prev.nums[j] - 1] == prev.list[prev.nums[j] - 1];
      }
    }
  }

  /** The numbering of a whole page. */
  datatype Numbering = Numbering(list: seq<string>, marks: seq<seq<int>>)

  /** `r` extends `list` with new texts only, repeats nothing, and marks
      every citation of every row with the number of its entry. */
  ghost predicate NumbersRows(list: seq<string>, rows: seq<seq<string>>, r: Numbering)
  {
    && |r.list| >= |list| && r.list[..|list|] == list
    && NoDuplicates(r.list)
    && |r.marks| == |rows|
    && (forall i :: 0 <= i < |rows| ==> |r.marks[i]| == |rows[i]|)
    && (forall i, j :: 0 <= i < |rows| && 0 <= j < |rows[i]| ==>
          1 <= r.marks[i][j] <= |r.list| && r.list[r.marks[i][j] - 1] == rows[i][j])
    && (forall t :: t in r.list <==> t in list || exists i :: 0 <= i < |rows| && t in rows[i])
  }

  /** The outer `forEach` over the page's rows, continuing from `list`. */
  function NumberFrom(list: seq<string>, rows: seq<seq<string>>): (r: Numbering)
    requires NoDuplicates(list)
    ensures NumbersRows(list, rows, r)
    decreases |rows|
  {
    if |rows| == 0 then Numbering(list, [])
    else
      var c := Cite(list, rows[0]);
      var rest := NumberFrom(c.list, rows[1..]);
      NumberStep(list, rows, c, rest);
      Numbering(rest.list, [c.nums] + rest.marks)
  }

  /** The first row cited, then the rest numbered on from its list. */
  lemma NumberStep(list: seq<string>, rows: seq<seq<string>>, c: Citing, rest: Numbering)
    requires |rows| > 0
    requires Numbers(list, rows[0], c)
    requires NumbersRows(c.list, rows[1..], rest)
    ensures NumbersRows(list, rows, Numbering(rest.list, [c.nums] + rest.marks))
  {
    var cl, cn, rl, rm := c.list, c.nums, rest.list, rest.marks;
    var marks := [cn] + rm;
    assert rl[..|list|] == list by {
      assert rl[..|cl|][..|list|] == rl[..|list|];
    }
    forall j | 0 <= j < |rows[0]|
      ensures rl[cn[j] - 1] == cl[cn[j] - 1]
    {
      assert rl[..|cl|][cn[j] - 1] == rl[cn[j] - 1];
    }
    assert forall i :: 1 <= i < |rows| ==> rows[i] == rows[1..][i - 1] && marks[i] == rm[i - 1];
    forall t
      ensures (exists i :: 0 <= i < |rows| && t in rows[i]) <==>
        t in rows[0] || exists i :: 0 <= i < |rows| - 1 && t in rows[1..][i]
    {
      if exists i :: 0 <= i < |rows| && t in rows[i] {
        var i :| 0 <= i < |rows| && t in rows[i];
        if i > 0 {
          assert t in rows[1..][i - 1];
        }
      }
      if exists i :: 0 <= i < |rows| - 1 && t in rows[1..][i] {
        var i :| 0 <= i < |rows| - 1 && t in rows[1..][i];
        assert t in rows[i + 1];
      }
    }
  }

  /** The numbering `renderTable` builds for the rows on the page; an
      empty list hides the references section. */
  function NumberReferences(rows: seq<seq<string>>): (r: Numbering)
    ensures NoDuplicates(r.list)
    ensures |r.marks| == |rows|
    ensures forall i :: 0 <= i < |rows| ==> |r.marks[i]| == |rows[i]|
    ensures forall i, j :: 0 <= i < |rows| && 0 <= j < |rows[i]| ==>
      1 <= r.marks[i][j] <= |r.list| && r.list[r.marks[i][j] - 1] == rows[i][j]
    ensures forall t :: t in r.list <==> exists i :: 0 <= i < |rows| && t in rows[i]
    ensures r.list == [] <==> forall i :: 0 <= i < |rows| ==> rows[i] == []
  {
    var r := NumberFrom([], rows);
    NothingCited(rows, r.list);
    r
  }

  /** The list is empty exactly when no row cites anything. */
  lemma NothingCited(rows: seq<seq<string>>, list: seq<string>)
    requires forall t :: t in list <==> exists i :: 0 <= i < |rows| && t in rows[i]
    ensures list == [] <==> forall i :: 0 <= i < |rows| ==> rows[i] == []
  {
    if list != [] {
      assert list[0] in list;
      var i :| 0 <= i < |rows| && list[0] in rows[i];
      assert rows[i] != [];
    }
    if i :| 0 <= i < |rows| && rows[i] != [] {
      var t := rows[i][0];
      assert t in rows[i];
      assert t in list;
    }
  }

  /** The last citation either reuses an entry or appends one. */
  lemma ListedSnoc(list: seq<string>, init: seq<string>, t: string)
    ensures var prev := Listed(list, init);
      Listed(list, init + [t]) == if t in prev then prev else prev + [t]
  {
    var texts := init + [t];
    assert texts[..|texts| - 1] == init;
  }

  /** Citing `a` then `b` lists the same references as citing `a + b`. */
  lemma {:induction false} ListedAppend(list: seq<string>, a: seq<string>, b: seq<string>)
    ensures Listed(list, a + b) == Listed(Listed(list, a), b)
    decreases |b|
  {
    if |b| == 0 {
      assert a + b == a;
    } else {
      var b', t := b[..|b| - 1], b[|b| - 1];
      ListedAppend(list, a, b');
      assert b == b' + [t];
      assert a + b == (a + b') + [t];
      ListedSnoc(list, a + b', t);
      ListedSnoc(Listed(list, a), b', t);
    }
  }

  /** Page by page or all at once, the same references are listed. */
  lemma {:induction false} NumberFromIsCiteFlat(list: seq<string>, rows: seq<seq<string>>)
    requires NoDuplicates(list)
    ensures NumberFrom(list, rows).list == Listed(list, Flatten(rows))
    decreases |rows|
  {
    if |rows| > 0 {
      var c := Cite(list, rows[0]);
      NumberFromIsCiteFlat(c.list, rows[1..]);
      ListedAppend(list, rows[0], Flatten(rows[1..]));
    }
  }

  /** Every entry of `list` occurs in `texts`, and entries appear in the
      order of their first occurrence there. */
  ghost predicate InFirstCitationOrder(list: seq<string>, texts: seq<string>)
  {
    forall i, j :: 0 <= i < j < |list| ==>
      list[i] in texts && list[j] in texts && IndexOf(texts, list[i]) < IndexOf(texts, list[j])
  }

  /** The list of a single citation run is ordered by first citation. */
  lemma {:induction false} ListedInFirstOrder(texts: seq<string>)
    ensures InFirstCitationOrder(Listed([], texts), texts)
    decreases |texts|
  {
    if |texts| > 0 {
      var init := texts[..|texts| - 1];
      var t := texts[|texts| - 1];
      assert texts == init + [t];
      ListedInFirstOrder(init);
      ListedSnoc([], init, t);
      var prev := Cite([], init).list;
      assert forall u :: u in prev <==> u in init;
      FirstOrderSnoc(texts, init, t, prev, Listed([], texts));
    }
  }

  lemma FirstOrderSnoc(texts: seq<string>, init: seq<string>, t: string, prev: seq<string>, list: seq<string>)
    requires texts == init + [t]
    requires forall u :: u in prev <==> u in init
    requires list == if t in prev then prev else prev + [t]
    requires InFirstCitationOrder(prev, init)
    ensures InFirstCitationOrder(list, texts)
  {
    forall k | 0 <= k < |prev|
      ensures prev[k] in init && IndexOf(texts, prev[k]) == IndexOf(init, prev[k]) < |init|
    {
      assert prev[k] in prev;
      IndexOfAppend(init, t, prev[k]);
    }
    forall i, j | 0 <= i < j < |list|
      ensures list[i] in texts && list[j] in texts && IndexOf(texts, list[i]) < IndexOf(texts, list[j])
    {
      assert list[i] == prev[i];
      if j < |prev| {
        assert list[j] == prev[j];
      } else {
        assert list[j] == t && t !in init;
        IndexOfLast(init, t);
      }
    }
  }

  /** `renderReferences` lists the references in the order the page first
      cites them, reading rows top to bottom and each row left to right. */
  lemma ReferencesInFirstCitationOrder(rows: seq<seq<string>>)
    ensures InFirstCitationOrder(NumberReferences(rows).list, Flatten(rows))
  {
    var list := NumberReferences(rows).list;
    assert list == NumberFrom([], rows).list;
    NumberFromIsCiteFlat([], rows);
    ListedInFirstOrder(Flatten(rows));
  }
}
