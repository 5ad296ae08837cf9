/** Tablet counts for a regimen: how often each strength is used in a
    week, the supply for an appointment period, and the per-family
    whole-tablet figures shown in the summary.  Strengths and totals are
    quarter-milligrams. */
module Supply {
  import opened Seqs
  import opened Wrappers
  import opened Pills
  import opened Arith

  /** Strength -> number of tablets (`pillsUsedPerWeekPattern1`, `summaryForPeriod`). */
  type Counts = map<int, nat>

  /** Number of times each strength occurs in the list (`forEach` with
      `(counts[v] || 0) + 1`). */
  function Tally(s: seq<int>): (m: Counts)
    ensures forall v :: v in m <==> v in s
    ensures forall v :: v in m ==> m[v] == Count(s, v)
  {
    if |s| == 0 then map[]
    else
      var rest := Tally(s[1..]);
      assert forall v :: v in s <==> v == s[0] || v in s[1..];
      CountPositiveAll(s[1..]);
      rest[s[0] := (if s[0] in rest then rest[s[0]] else 0) + 1]
  }

  lemma CountPositiveAll(s: seq<int>)
    ensures forall v :: v !in s ==> Count(s, v) == 0
  {
    forall v | v !in s
      ensures Count(s, v) == 0
    {
      CountPositive(s, v);
    }
  }

  /** The weekly usage: every tablet of every day's list counted once. */
  function WeeklyUsage(week: seq<seq<int>>): (m: Counts)
    ensures forall v :: v in m <==> exists i :: 0 <= i < |week| && v in week[i]
    ensures forall v :: v in m ==> m[v] == Count(Flatten(week), v)
  {
    var m := Tally(Flatten(week));
    assert forall v :: v in m <==> v in Flatten(week);
    InFlattenAll(week);
    m
  }

  lemma InFlattenAll(week: seq<seq<int>>)
    ensures forall v :: v in Flatten(week) <==> exists i :: 0 <= i < |week| && v in week[i]
  {
    forall v
      ensures v in Flatten(week) <==> exists i :: 0 <= i < |week| && v in week[i]
    {
      InFlatten(week, v);
    }
  }

  /** Supply for an appointment of `days` days (`parseInt` of the input;
      `None` is NaN): each weekly count scaled by days/7 and rounded up,
      or the weekly counts unchanged when the day count is not positive. */
  function PeriodSummary(weekly: Counts, days: Option<int>): (r: Counts)
    ensures r.Keys == weekly.Keys
    ensures days.Some? && days.value > 0 ==>
      forall v :: v in r ==> r[v] * 7 >= weekly[v] * days.value > (r[v] as int - 1) * 7
    ensures !(days.Some? && days.value > 0) ==> r == weekly
  {
    if days.Some? && days.value > 0 then
      var d := days.value;
      assert forall v :: v in weekly ==> weekly[v] * d >= 0;
      map v | v in weekly :: CeilDiv(weekly[v] * d, 7)
    else weekly
  }

  /** A seven-day appointment needs exactly one week's tablets. */
  lemma OneWeekPeriodIsWeekly(weekly: Counts)
    ensures PeriodSummary(weekly, Some(7)) == weekly
  {
    var r := PeriodSummary(weekly, Some(7));
    forall v | v in weekly
      ensures r[v] == weekly[v]
    {
      CeilDivUnique(weekly[v] * 7, 7, weekly[v]);
    }
  }

  /** A whole number of weeks scales the weekly counts exactly. */
  lemma WholeWeeksScaleExactly(weekly: Counts, weeks: nat)
    requires weeks > 0
    ensures forall v :: v in weekly ==> PeriodSummary(weekly, Some(7 * weeks))[v] == weekly[v] * weeks
  {
    forall v | v in weekly
      ensures PeriodSummary(weekly, Some(7 * weeks))[v] == weekly[v] * weeks
    {
      PeriodSummaryAt(weekly, 7 * weeks, v);
      WholeWeeks(weekly[v], weeks);
    }
  }

  lemma PeriodSummaryAt(weekly: Counts, days: int, v: int)
    requires days > 0 && v in weekly
    ensures PeriodSummary(weekly, Some(days))[v] == CeilDiv(weekly[v] * days, 7)
  {
  }

  lemma WholeWeeks(c: int, weeks: int)
    ensures CeilDiv(c * (7 * weeks), 7) == c * weeks
  {
    assert c * (7 * weeks) == (c * weeks) * 7;
    CeilDivExact(c * weeks, 7);
  }

  /** A longer appointment never needs fewer tablets of any strength. */
  lemma PeriodSummaryMonotone(weekly: Counts, d1: int, d2: int)
    requires 0 < d1 <= d2
    ensures forall v :: v in weekly ==>
      PeriodSummary(weekly, Some(d1))[v] <= PeriodSummary(weekly, Some(d2))[v]
  {
    forall v | v in weekly
      ensures PeriodSummary(weekly, Some(d1))[v] <= PeriodSummary(weekly, Some(d2))[v]
    {
      PeriodSummaryAt(weekly, d1, v);
      PeriodSummaryAt(weekly, d2, v);
      LongerNeedsMore(weekly[v], d1, d2);
    }
  }

  lemma LongerNeedsMore(c: nat, d1: int, d2: int)
    requires d1 <= d2
    ensures CeilDiv(c * d1, 7) <= CeilDiv(c * d2, 7)
  {
    assert c * d2 - c * d1 == c * (d2 - d1);
    CeilDivMonotone(c * d1, c * d2, 7);
  }

  /** One line of the supply summary: `count` tablets of base strength `base`. */
  datatype DisplayItem = DisplayItem(base: int, count: int)

  /** Quarter-milligrams of one family's strengths in the counts
      (`aggregatedCounts[base].totalMg`). */
  function FamilyTotal(m: Counts, family: seq<int>): (total: int)
    requires forall i :: 0 <= i < |family| ==> family[i] > 0
    ensures total >= 0
    ensures total == 0 <==> forall i :: 0 <= i < |family| && family[i] in m ==> m[family[i]] == 0
  {
    if |family| == 0 then 0
    else
      var v := family[0];
      var rest := FamilyTotal(m, family[1..]);
      assert forall i :: 1 <= i < |family| ==> family[i] == family[1..][i - 1];
      var own := if v in m then v * m[v] else 0;
      assert own >= 0 && (own == 0 <==> v !in m || m[v] == 0) by {
        if v in m {
          assert m[v] > 0 ==> v * m[v] > 0;
        }
      }
      own + rest
  }

  /** Quarter-milligrams of one family in a list of tablets: the tablets
      that belong to the family added up, each as often as it occurs. */
  function FamilyMass(s: seq<int>, family: seq<int>): int
  {
    if |s| == 0 then 0 else (if s[0] in family then s[0] else 0) + FamilyMass(s[1..], family)
  }

  /** One more tablet of strength `v` raises a family's total by `v`
      exactly when `v` belongs to the family. */
  lemma {:induction false} FamilyTotalBump(m: Counts, family: seq<int>, v: int)
    requires forall i :: 0 <= i < |family| ==> family[i] > 0
    requires NoDuplicates(family)
    ensures FamilyTotal(m[v := (if v in m then m[v] else 0) + 1], family)
         == FamilyTotal(m, family) + (if v in family then v else 0)
  {
    if |family| > 0 {
      var tail := family[1..];
      assert forall i :: 0 <= i < |tail| ==> tail[i] == family[i + 1];
      FamilyTotalBump(m, tail, v);
      assert v in family <==> v == family[0] || v in tail;
      assert family[0] !in tail;
    }
  }

  /** The total gathered from the tally of a list of tablets is the
      family's share of that list, so the summary counts milligrams. */
  lemma {:induction false} TallyFamilyTotal(s: seq<int>, family: seq<int>)
    requires forall i :: 0 <= i < |family| ==> family[i] > 0
    requires NoDuplicates(family)
    ensures FamilyTotal(Tally(s), family) == FamilyMass(s, family)
  {
    if |s| > 0 {
      var rest := Tally(s[1..]);
      var v := s[0];
      assert Tally(s) == rest[v := (if v in rest then rest[v] else 0) + 1];
      TallyFamilyTotal(s[1..], family);
      FamilyTotalBump(rest, family, v);
      assert FamilyMass(s, family) == (if v in family then v else 0) + FamilyMass(s[1..], family);
    }
  }

  /** The summary line for one family, omitted when it has no milligrams. */
  function FamilyItem(base: int, total: int): (items: seq<DisplayItem>)
    requires base > 0 && total >= 0
    ensures total == 0 ==> items == []
    ensures total > 0 ==> |items| == 1 && items[0].base == base
    ensures total > 0 ==> items[0].count * base >= total > (items[0].count - 1) * base
  {
    if total == 0 then [] else [DisplayItem(base, CeilDiv(total, base))]
  }

  /** The line for `base` in the summary, if any, carries enough tablets. */
  predicate Shows(items: seq<DisplayItem>, base: int, total: int)
  {
    && (total > 0 <==> exists i :: 0 <= i < |items| && items[i].base == base)
    && forall i :: 0 <= i < |items| && items[i].base == base ==>
         items[i].count * base >= total > (items[i].count - 1) * base
  }

  /** `normalizePillCountsForDisplay`: each family's milligrams gathered
      over its strengths and shown as whole base tablets (5 mg, 3 mg,
      then 2 mg), rounded up; a family with no milligrams is left out. */
  function NormalizeForDisplay(m: Counts): (items: seq<DisplayItem>)
    ensures |items| <= 3
    ensures forall i, j :: 0 <= i < j < |items| ==> items[i].base > items[j].base
    ensures forall i :: 0 <= i < |items| ==> items[i].base in {20, 12, 8}
    ensures Shows(items, 20, FamilyTotal(m, FiveMgFamily))
    ensures Shows(items, 12, FamilyTotal(m, ThreeMgFamily))
    ensures Shows(items, 8, FamilyTotal(m, TwoMgFamily))
  {
    var t5, t3, t2 := FamilyTotal(m, FiveMgFamily), FamilyTotal(m, ThreeMgFamily), FamilyTotal(m, TwoMgFamily);
    FamilyLines(t5, t3, t2);
    FamilyItem(20, t5) + FamilyItem(12, t3) + FamilyItem(8, t2)
  }

  /** Shown for the tally of a list of tablets, each family's line carries
      the fewest base tablets whose milligrams cover that family's tablets
      in the list, and there is a line exactly when the family is used. */
  lemma DisplayCoversFamilyMilligrams(s: seq<int>)
    ensures var items := NormalizeForDisplay(Tally(s));
      && Shows(items, 20, FamilyMass(s, FiveMgFamily))
      && Shows(items, 12, FamilyMass(s, ThreeMgFamily))
      && Shows(items, 8, FamilyMass(s, TwoMgFamily))
  {
    var m := Tally(s);
    FamilyShape(FiveMgFamily);
    FamilyShape(ThreeMgFamily);
    FamilyShape(TwoMgFamily);
    TallyFamilyTotal(s, FiveMgFamily);
    TallyFamilyTotal(s, ThreeMgFamily);
    TallyFamilyTotal(s, TwoMgFamily);
    var items := NormalizeForDisplay(m);
    assert Shows(items, 20, FamilyTotal(m, FiveMgFamily));
    assert Shows(items, 12, FamilyTotal(m, ThreeMgFamily));
    assert Shows(items, 8, FamilyTotal(m, TwoMgFamily));
  }

  /** Each family lists positive strengths, none twice. */
  lemma FamilyShape(family: seq<int>)
    requires family == FiveMgFamily || family == ThreeMgFamily || family == TwoMgFamily
    ensures forall i :: 0 <= i < |family| ==> family[i] > 0
    ensures NoDuplicates(family)
  {
  }

  /** The three family lines in base order, each showing its family. */
  lemma FamilyLines(t5: int, t3: int, t2: int)
    requires t5 >= 0 && t3 >= 0 && t2 >= 0
    ensures var items := FamilyItem(20, t5) + FamilyItem(12, t3) + FamilyItem(8, t2);
      && |items| <= 3
      && (forall i, j :: 0 <= i < j < |items| ==> items[i].base > items[j].base)
      && (forall i :: 0 <= i < |items| ==> items[i].base in {20, 12, 8})
      && Shows(items, 20, t5) && Shows(items, 12, t3) && Shows(items, 8, t2)
  {
    ShowsLines(FamilyItem(20, t5), FamilyItem(12, t3), FamilyItem(8, t2), t5, t3, t2);
  }

  /** Concatenating at most one line per base keeps each base's line. */
  lemma ShowsLines(five: seq<DisplayItem>, three: seq<DisplayItem>, two: seq<DisplayItem>, t5: int, t3: int, t2: int)
    requires |five| <= 1 && |three| <= 1 && |two| <= 1
    requires forall i :: 0 <= i < |five| ==> five[i].base == 20
    requires forall i :: 0 <= i < |three| ==> three[i].base == 12
    requires forall i :: 0 <= i < |two| ==> two[i].base == 8
    requires Shows(five, 20, t5) && Shows(three, 12, t3) && Shows(two, 8, t2)
    ensures var items := five + three + two;
      && |items| <= 3
      && (forall i, j :: 0 <= i < j < |items| ==> items[i].base > items[j].base)
      && (forall i :: 0 <= i < |items| ==> items[i].base in {20, 12, 8})
      && Shows(items, 20, t5) && Shows(items, 12, t3) && Shows(items, 8, t2)
  {
    var front := five + three;
    ShowsLeft(five, three, 20, t5);
    ShowsRight(five, three, 12, t3);
    ShowsLeft(front, two, 20, t5);
    ShowsLeft(front, two, 12, t3);
    ShowsRight(front, two, 8, t2);
  }

  /** Lines for other bases appended after `a` do not disturb its line. */
  lemma ShowsLeft(a: seq<DisplayItem>, b: seq<DisplayItem>, base: int, t: int)
    requires Shows(a, base, t)
    requires forall i :: 0 <= i < |b| ==> b[i].base != base
    ensures Shows(a + b, base, t)
  {
    var s := a + b;
    forall i | 0 <= i < |s| && s[i].base == base
      ensures i < |a| && s[i] == a[i]
    {
    }
    if exists i :: 0 <= i < |a| && a[i].base == base {
      var i :| 0 <= i < |a| && a[i].base == base;
      assert s[i] == a[i];
    }
  }

  /** Lines for other bases placed before `b` do not disturb its line. */
  lemma ShowsRight(a: seq<DisplayItem>, b: seq<DisplayItem>, base: int, t: int)
    requires Shows(b, base, t)
    requires forall i :: 0 <= i < |a| ==> a[i].base != base
    ensures Shows(a + b, base, t)
  {
    var s := a + b;
    forall i | 0 <= i < |s| && s[i].base == base
      ensures i >= |a| && s[i] == b[i - |a|]
    {
    }
    if exists i :: 0 <= i < |b| && b[i].base == base {
      var i :| 0 <= i < |b| && b[i].base == base;
      assert s[i + |a|] == b[i];
    }
  }
}
