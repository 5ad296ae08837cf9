/** The selection lists behind the two tables of the pregnancy and
    lactation page: the drugs picked in the search box (or by clicking a
    medication in the guideline table) and the diseases picked for the
    treatment guidelines, and the row filters each list drives. */
module Selection {
  import opened Seqs
  import opened Wrappers

  /** A row of the restricted-drug data. */
  datatype Drug = Drug(name: string, keywords: seq<string>, references: seq<string>)

  /** A row of the treatment-guideline data. */
  datatype Guideline = Guideline(disease: string, pregnantMeds: string, lactatingMeds: string)

  /** `if (!list.includes(name)) list.push(name)`. */
  function AddName(selected: seq<string>, name: string): (r: seq<string>)
    ensures name in r
    ensures forall x :: x in r <==> x in selected || x == name
    ensures |r| >= |selected| && r[..|selected|] == selected
    ensures |r| == if name in selected then |selected| else |selected| + 1
    ensures NoDuplicates(selected) ==> NoDuplicates(r)
  {
    if name in selected then selected
    else
      assert (selected + [name])[..|selected|] == selected;
      selected + [name]
  }

  /** `list.filter(x => x !== name)`. */
  function RemoveName(selected: seq<string>, name: string): (r: seq<string>)
    ensures name !in r
    ensures forall x :: x in r <==> x in selected && x != name
    ensures |r| <= |selected|
    ensures NoDuplicates(selected) ==> NoDuplicates(r)
  {
    if |selected| == 0 then []
    else
      var rest := RemoveName(selected[1..], name);
      assert forall x :: x in selected <==> x == selected[0] || x in selected[1..];
      if selected[0] == name then rest
      else
        assert NoDuplicates(selected) ==>
          NoDuplicates(selected[1..]) && forall k :: 0 <= k < |selected| - 1 ==> selected[1..][k] != selected[0];
        if NoDuplicates(selected) then ConsNoDuplicates(selected[0], rest); [selected[0]] + rest
        else [selected[0]] + rest
  }

  lemma ConsNoDuplicates<T>(x: T, s: seq<T>)
    requires NoDuplicates(s) && x !in s
    ensures NoDuplicates([x] + s)
  {
    var r := [x] + s;
    forall i, j | 0 <= i < j < |r|
      ensures r[i] != r[j]
    {
      assert r[j] == s[j - 1];
      if i > 0 {
        assert r[i] == s[i - 1];
      }
    }
  }

  /** Removing a name that is not there changes nothing. */
  lemma {:induction false} RemoveAbsent(selected: seq<string>, name: string)
    requires name !in selected
    ensures RemoveName(selected, name) == selected
  {
    if |selected| > 0 {
      RemoveAbsent(selected[1..], name);
    }
  }

  /** Removing distributes over concatenation: the order of the names left is kept. */
  lemma {:induction false} RemoveAppend(a: seq<string>, b: seq<string>, name: string)
    ensures RemoveName(a + b, name) == RemoveName(a, name) + RemoveName(b, name)
  {
    if |a| == 0 {
      assert a + b == b;
    } else {
      assert (a + b)[1..] == a[1..] + b;
      RemoveAppend(a[1..], b, name);
    }
  }

  /** Adding a new tag and then removing it restores the list exactly. */
  lemma AddThenRemove(selected: seq<string>, name: string)
    requires name !in selected
    ensures RemoveName(AddName(selected, name), name) == selected
  {
    RemoveAppend(selected, [name], name);
    RemoveAbsent(selected, name);
    assert RemoveName([name], name) == [];
  }

  /** Removing then adding back leaves the same names (at the end of the list). */
  lemma RemoveThenAdd(selected: seq<string>, name: string)
    ensures forall x :: x in AddName(RemoveName(selected, name), name) <==> x in AddName(selected, name)
  {
  }

  /** A drug answers a search term by name or by one of its keywords. */
  predicate Matches(d: Drug, term: string)
  {
    d.name == term || term in d.keywords
  }

  /** `drugsData.find(...)`: the first drug matching the term. */
  function FindDrug(drugs: seq<Drug>, term: string): (r: Option<Drug>)
    ensures r.None? <==> forall i :: 0 <= i < |drugs| ==> !Matches(drugs[i], term)
    ensures r.Some? ==> exists i :: (0 <= i < |drugs| && drugs[i] == r.value && Matches(r.value, term)
      && forall k :: 0 <= k < i ==> !Matches(drugs[k], term))
  {
    if |drugs| == 0 then None
    else if Matches(drugs[0], term) then Some(drugs[0])
    else
      var r := FindDrug(drugs[1..], term);
      assert forall i :: 1 <= i < |drugs| ==> drugs[i] == drugs[1..][i - 1];
      if r.Some? then
        var i :| 0 <= i < |drugs[1..]| && drugs[1..][i] == r.value && Matches(r.value, term)
          && forall k :: 0 <= k < i ==> !Matches(drugs[1..][k], term);
        assert drugs[i + 1] == r.value;
        r
      else r
  }

  /** The search box's select handler: an empty term is ignored; otherwise
      the name of the first matching drug joins the selection, and a term
      nothing matches changes nothing. */
  function SelectDrug(selected: seq<string>, drugs: seq<Drug>, term: string): (r: seq<string>)
    ensures term == "" ==> r == selected
    ensures term != "" && (forall i :: 0 <= i < |drugs| ==> !Matches(drugs[i], term)) ==> r == selected
    ensures term != "" && FindDrug(drugs, term).Some? ==> r == AddName(selected, FindDrug(drugs, term).value.name)
    ensures forall x :: x in r ==> x in selected || exists i :: 0 <= i < |drugs| && drugs[i].name == x
    ensures NoDuplicates(selected) ==> NoDuplicates(r)
  {
    if term == "" then selected
    else match FindDrug(drugs, term)
      case None => selected
      case Some(d) => AddName(selected, d.name)
  }

  /** Clicking a medication name in the guideline table adds it once. */
  function ClickMedication(selected: seq<string>, name: string): (r: seq<string>)
    ensures forall x :: x in r <==> x in selected || x == name
    ensures |r| >= |selected| && r[..|selected|] == selected
    ensures |r| == if name in selected then |selected| else |selected| + 1
    ensures NoDuplicates(selected) ==> NoDuplicates(r)
  {
    AddName(selected, name)
  }

  /** The disease box: an empty name is ignored, otherwise added once. */
  function SelectDisease(selected: seq<string>, name: string): (r: seq<string>)
    ensures name == "" ==> r == selected
    ensures name != "" ==> forall x :: x in r <==> x in selected || x == name
    ensures NoDuplicates(selected) ==> NoDuplicates(r)
  {
    if name == "" then selected else AddName(selected, name)
  }

  /** A disease tag's remove button: an empty name is ignored. */
  function RemoveDisease(selected: seq<string>, name: string): (r: seq<string>)
    ensures name == "" ==> r == selected
    ensures name != "" ==> forall x :: x in r <==> x in selected && x != name
  {
    if name == "" then selected else RemoveName(selected, name)
  }

  /** The drugs whose names are selected, in table order. */
  function KeepNamed(drugs: seq<Drug>, names: seq<string>): (r: seq<Drug>)
    ensures forall d :: d in r <==> d in drugs && d.name in names
    ensures |r| <= |drugs|
  {
    if |drugs| == 0 then []
    else
      assert forall d :: d in drugs <==> d == drugs[0] || d in drugs[1..];
      (if drugs[0].name in names then [drugs[0]] else []) + KeepNamed(drugs[1..], names)
  }

  /** Filtering keeps the table's order: it distributes over concatenation. */
  lemma {:induction false} KeepNamedAppend(a: seq<Drug>, b: seq<Drug>, names: seq<string>)
    ensures KeepNamed(a + b, names) == KeepNamed(a, names) + KeepNamed(b, names)
  {
    if |a| == 0 {
      assert a + b == b;
    } else {
      assert (a + b)[1..] == a[1..] + b;
      KeepNamedAppend(a[1..], b, names);
    }
  }

  /** `drugsToDisplay`: every drug while nothing is selected, otherwise the
      selected drugs. */
  function FilterDrugs(drugs: seq<Drug>, names: seq<string>): (r: seq<Drug>)
    ensures |names| == 0 ==> r == drugs
    ensures |names| > 0 ==> forall d :: d in r <==> d in drugs && d.name in names
  {
    if |names| == 0 then drugs else KeepNamed(drugs, names)
  }

  /** The drug filter keeps the table's order and multiplicity. */
  lemma FilterDrugsAppend(a: seq<Drug>, b: seq<Drug>, names: seq<string>)
    ensures FilterDrugs(a + b, names) == FilterDrugs(a, names) + FilterDrugs(b, names)
  {
    if |names| > 0 {
      KeepNamedAppend(a, b, names);
    }
  }

  /** With something already selected, selecting another drug never hides
      a row; only clearing the last tag jumps back to the whole table. */
  lemma SelectingMoreShowsMore(drugs: seq<Drug>, names: seq<string>, name: string)
    requires |names| > 0
    ensures forall d :: d in FilterDrugs(drugs, names) ==> d in FilterDrugs(drugs, AddName(names, name))
  {
  }

  /** `toLowerCase` on the ASCII letters. */
  function LowerChar(c: char): (l: char)
    ensures 'A' <= c <= 'Z' ==> 'a' <= l <= 'z'
    ensures !('A' <= c <= 'Z') ==> l == c
  {
    if 'A' <= c <= 'Z' then (c as int + 32) as char else c
  }

  function Lower(s: string): (r: string)
    ensures |r| == |s|
    ensures forall i :: 0 <= i < |s| ==> r[i] == LowerChar(s[i])
  {
    if |s| == 0 then "" else [LowerChar(s[0])] + Lower(s[1..])
  }

  /** `hay.includes(needle)`: the needle starts at some position of the hay. */
  predicate Contains(hay: string, needle: string)
    decreases |hay|
  {
    (|needle| <= |hay| && hay[..|needle|] == needle) || (|hay| > 0 && Contains(hay[1..], needle))
  }

  /** A guideline row is shown when its disease contains one of the
      selected names, ignoring case. */
  predicate MentionsAny(g: Guideline, diseases: seq<string>)
  {
    exists k :: 0 <= k < |diseases| && Contains(Lower(g.disease), Lower(diseases[k]))
  }

  /** `filterTreatmentTable`: every row while no disease is selected. */
  function FilterGuidelines(items: seq<Guideline>, diseases: seq<string>): (r: seq<Guideline>)
    ensures |diseases| == 0 ==> r == items
    ensures |diseases| > 0 ==> forall g :: g in r <==> g in items && MentionsAny(g, diseases)
  {
    if |diseases| == 0 then items else KeepMentioning(items, diseases)
  }

  function KeepMentioning(items: seq<Guideline>, diseases: seq<string>): (r: seq<Guideline>)
    ensures forall g :: g in r <==> g in items && MentionsAny(g, diseases)
    ensures |r| <= |items|
  {
    if |items| == 0 then []
    else
      assert forall g :: g in items <==> g == items[0] || g in items[1..];
      (if MentionsAny(items[0], diseases) then [items[0]] else []) + KeepMentioning(items[1..], diseases)
  }

  /** Filtering keeps the table's order: it distributes over concatenation. */
  lemma {:induction false} KeepMentioningAppend(a: seq<Guideline>, b: seq<Guideline>, diseases: seq<string>)
    ensures KeepMentioning(a + b, diseases) == KeepMentioning(a, diseases) + KeepMentioning(b, diseases)
  {
    if |a| == 0 {
      assert a + b == b;
    } else {
      assert (a + b)[1..] == a[1..] + b;
      KeepMentioningAppend(a[1..], b, diseases);
    }
  }

  /** The guideline filter is `Array.prototype.filter`: each row is kept or
      dropped on its own, so the rows kept stay in table order and keep
      their multiplicity. */
  lemma FilterGuidelinesAppend(a: seq<Guideline>, b: seq<Guideline>, diseases: seq<string>)
    ensures FilterGuidelines(a + b, diseases) == FilterGuidelines(a, diseases) + FilterGuidelines(b, diseases)
    ensures FilterGuidelines([], diseases) == []
  {
    if |diseases| > 0 {
      KeepMentioningAppend(a, b, diseases);
    }
  }

  /** Selecting a disease from the box, whose options are the rows' own
      disease names, always keeps the rows of that disease. */
  lemma SelectedDiseaseRowsShown(items: seq<Guideline>, diseases: seq<string>, g: Guideline)
    requires g in items
    requires g.disease in diseases
    ensures g in FilterGuidelines(items, diseases)
  {
    var k :| 0 <= k < |diseases| && diseases[k] == g.disease;
    var s := Lower(g.disease);
    assert Lower(diseases[k]) == s;
    assert s[..|s|] == s;
    assert Contains(s, Lower(diseases[k]));
  }
}
