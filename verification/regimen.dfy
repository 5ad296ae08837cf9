/** The weekly regimen (`calculateRegimen`): the weekly target is split
    into seven daily doses, each dose is decomposed into tablets, the
    days are ordered by tablet count so that the most complex doses fall
    on the weekend, and the tablet supply is summed up.  Amounts are
    quarter-milligrams. */
module Regimen {
  import opened Seqs
  import opened Wrappers
  import opened Pills
  import opened Decomposer
  import opened DoseSplit
  import opened Supply

  datatype Weekday = Mon | Tue | Wed | Thu | Fri | Sat | Sun

  /** Display order of the regimen table (`daysOfWeekNames`). */
  const WeekOrder: seq<Weekday> := [Mon, Tue, Wed, Thu, Fri, Sat, Sun]

  /** Order in which days receive doses, most complex first (`prioritizedDays`). */
  const PriorityOrder: seq<Weekday> := [Sat, Sun, Fri, Thu, Wed, Tue, Mon]

  /** Position of a day in the table (`daysOfWeekNames.indexOf`). */
  function DayIndex(d: Weekday): (j: nat)
    ensures j < |WeekOrder| && WeekOrder[j] == d
  {
    match d
    case Mon => 0
    case Tue => 1
    case Wed => 2
    case Thu => 3
    case Fri => 4
    case Sat => 5
    case Sun => 6
  }

  /** Position of a day in the priority order. */
  function PriorityRank(d: Weekday): (i: nat)
    ensures i < |PriorityOrder| && PriorityOrder[i] == d
  {
    match d
    case Sat => 0
    case Sun => 1
    case Fri => 2
    case Thu => 3
    case Wed => 4
    case Tue => 5
    case Mon => 6
  }

  /** A daily dose with its tablets; the tablet count is its complexity. */
  datatype DoseEntry = DoseEntry(dose: int, pills: seq<int>)

  /** The sort comparator: more tablets first, then the larger dose. */
  predicate Before(a: DoseEntry, b: DoseEntry)
  {
    |a.pills| > |b.pills| || (|a.pills| == |b.pills| && a.dose >= b.dose)
  }

  predicate SortedByComplexity(s: seq<DoseEntry>)
  {
    forall i, j :: 0 <= i < j < |s| ==> Before(s[i], s[j])
  }

  /** Places `e` in front of the first entry it may precede, so that among
      entries the comparator ties, the earlier one stays first. */
  function Insert(e: DoseEntry, s: seq<DoseEntry>): (r: seq<DoseEntry>)
    ensures |r| == |s| + 1
    ensures multiset(r) == multiset(s) + multiset{e}
  {
    if |s| == 0 || Before(e, s[0]) then [e] + s
    else
      assert s == [s[0]] + s[1..];
      [s[0]] + Insert(e, s[1..])
  }

  /** Inserting into a sorted list keeps it sorted. */
  lemma {:induction false} InsertKeepsOrder(e: DoseEntry, s: seq<DoseEntry>)
    requires SortedByComplexity(s)
    ensures SortedByComplexity(Insert(e, s))
  {
    if |s| == 0 || Before(e, s[0]) {
      forall x | x in multiset(s)
        ensures Before(e, x)
      {
        var k :| 0 <= k < |s| && s[k] == x;
        if k > 0 {
          assert Before(s[0], s[k]);
        }
      }
      ConsSorted(e, s);
    } else {
      var rest := Insert(e, s[1..]);
      InsertKeepsOrder(e, s[1..]);
      forall x | x in multiset(rest)
        ensures Before(s[0], x)
      {
        if x != e {
          assert x in multiset(s[1..]);
          var k :| 0 <= k < |s[1..]| && s[1..][k] == x;
          assert s[k + 1] == x;
        }
      }
      ConsSorted(s[0], rest);
    }
  }

  lemma ConsSorted(x: DoseEntry, s: seq<DoseEntry>)
    requires SortedByComplexity(s)
    requires forall y :: y in multiset(s) ==> Before(x, y)
    ensures SortedByComplexity([x] + s)
  {
    var r := [x] + s;
    forall i, j | 0 <= i < j < |r|
      ensures Before(r[i], r[j])
    {
      assert r[j] == s[j - 1];
      if i == 0 {
        assert s[j - 1] in multiset(s);
      } else {
        assert r[i] == s[i - 1];
      }
    }
  }

  /** The stable sort of the source (`Array.prototype.sort` with the
      complexity comparator), as an insertion sort. */
  function SortByComplexity(s: seq<DoseEntry>): (r: seq<DoseEntry>)
    ensures |r| == |s|
    ensures multiset(r) == multiset(s)
    ensures SortedByComplexity(r)
  {
    if |s| == 0 then []
    else
      assert s == [s[0]] + s[1..];
      InsertKeepsOrder(s[0], SortByComplexity(s[1..]));
      Insert(s[0], SortByComplexity(s[1..]))
  }

  /** Every daily dose with its tablets, or `None` when some dose cannot
      be formed.  The source also treats a dose of 0 as formable; the
      decomposer already returns the empty list for it. */
  function DecomposeAll(doses: seq<int>, pills: seq<int>): (r: Option<seq<DoseEntry>>)
    requires ValidPillSet(pills)
    ensures r.Some? <==> forall i :: 0 <= i < |doses| ==> Decompose(doses[i], pills).Some?
    ensures r.Some? ==> |r.value| == |doses|
    ensures r.Some? ==> forall i :: 0 <= i < |doses| ==>
      r.value[i] == DoseEntry(doses[i], Decompose(doses[i], pills).value)
  {
    if |doses| == 0 then Some([])
    else
      var first := Decompose(doses[0], pills);
      var rest := DecomposeAll(doses[1..], pills);
      assert forall i :: 1 <= i < |doses| ==> doses[i] == doses[1..][i - 1];
      if first.None? || rest.None? then None
      else Some([DoseEntry(doses[0], first.value)] + rest.value)
  }

  /** One column of the regimen table. */
  datatype DayPlan = DayPlan(day: Weekday, dose: int, pills: seq<int>)

  /** The entries of a week, in table order. */
  function Entries(week: seq<DayPlan>): (entries: seq<DoseEntry>)
    ensures |entries| == |week|
    ensures forall j :: 0 <= j < |week| ==> entries[j] == EntryOf(week[j])
  {
    Map(EntryOf, week)
  }

  function EntryOf(p: DayPlan): DoseEntry
  {
    DoseEntry(p.dose, p.pills)
  }

  function OnDay(d: Weekday, e: DoseEntry): DayPlan
  {
    DayPlan(d, e.dose, e.pills)
  }

  /** The assignment loop: the `i`-th sorted entry goes to the `i`-th day
      of the priority order, stored at that day's position in the table. */
  function AssignDays(sorted: seq<DoseEntry>): (week: seq<DayPlan>)
    requires |sorted| == |PriorityOrder|
    ensures |week| == |WeekOrder|
    ensures forall j :: 0 <= j < |week| ==> week[j].day == WeekOrder[j]
    ensures forall i :: 0 <= i < |PriorityOrder| ==>
      week[DayIndex(PriorityOrder[i])] == DayPlan(PriorityOrder[i], sorted[i].dose, sorted[i].pills)
    ensures forall j :: 0 <= j < |week| ==> EntryOf(week[j]) == sorted[PriorityRank(WeekOrder[j])]
  {
    var week := [OnDay(Mon, sorted[6]), OnDay(Tue, sorted[5]), OnDay(Wed, sorted[4]), OnDay(Thu, sorted[3]),
                 OnDay(Fri, sorted[2]), OnDay(Sat, sorted[0]), OnDay(Sun, sorted[1])];
    week
  }

  /** Every sorted entry lands on exactly one day. */
  lemma AssignDaysPermutes(sorted: seq<DoseEntry>)
    requires |sorted| == |PriorityOrder|
    ensures multiset(Entries(AssignDays(sorted))) == multiset(sorted)
  {
    var week := AssignDays(sorted);
    var e := Entries(week);
    assert e[0] == sorted[6] && e[1] == sorted[5] && e[2] == sorted[4] && e[3] == sorted[3];
    assert e[4] == sorted[2] && e[5] == sorted[0] && e[6] == sorted[1];
    assert e == [sorted[6], sorted[5], sorted[4], sorted[3], sorted[2], sorted[0], sorted[1]];
    WeekIsShuffle(sorted);
  }

  lemma WeekIsShuffle<T>(s: seq<T>)
    requires |s| == 7
    ensures multiset([s[6], s[5], s[4], s[3], s[2], s[0], s[1]]) == multiset(s)
  {
    assert s == [s[0]] + [s[1]] + [s[2]] + [s[3]] + [s[4]] + [s[5]] + [s[6]];
    assert [s[6], s[5], s[4], s[3], s[2], s[0], s[1]]
        == [s[6]] + [s[5]] + [s[4]] + [s[3]] + [s[2]] + [s[0]] + [s[1]];
  }

  /** The tablet lists of the week, in table order. */
  function PillLists(week: seq<DayPlan>): (lists: seq<seq<int>>)
    ensures |lists| == |week|
    ensures forall j :: 0 <= j < |week| ==> lists[j] == week[j].pills
  {
    seq(|week|, j requires 0 <= j < |week| => week[j].pills)
  }

  /** The regimen table and the tablet supply for the appointment. */
  datatype Plan = Plan(details: seq<DayPlan>, summary: Counts)

  datatype RegimenError =
    | InvalidInput        // NaN or negative target, or no tablet ticked
    | NoRegimenPossible   // some daily dose cannot be formed

  /** Nothing to compute from: no target, a negative one, or no tablet. */
  predicate InvalidRequest(target: Option<int>, sel: FamilySelection)
  {
    target.None? || target.value < 0 || (!sel.two && !sel.three && !sel.five)
  }

  /** `calculateRegimen` without the rendering: `target` is the weekly dose
      in quarter-milligrams (`None` for NaN), `days` the appointment length. */
  function CalculateRegimen(target: Option<int>, sel: FamilySelection, days: Option<int>): (r: Result<Plan, RegimenError>)
    ensures r == Failure(InvalidInput) <==> InvalidRequest(target, sel)
    ensures r == Failure(NoRegimenPossible) <==>
      !InvalidRequest(target, sel)
      && exists i :: 0 <= i < DaysPerWeek && Decompose(EvenSplit(target.value)[i], AvailablePillSizes(sel)).None?
  {
    var pills := AvailablePillSizes(sel);
    if target.None? || target.value < 0 || |pills| == 0 then Failure(InvalidInput)
    else
      match DecomposeAll(EvenSplit(target.value), pills)
      case None => Failure(NoRegimenPossible)
      case Some(entries) =>
        var week := AssignDays(SortByComplexity(entries));
        Success(Plan(week, PeriodSummary(WeeklyUsage(PillLists(week)), days)))
  }

  function DoseOf(e: DoseEntry): int
  {
    e.dose
  }

  /** The daily doses of a week, in table order. */
  function Doses(week: seq<DayPlan>): (doses: seq<int>)
    ensures |doses| == |week|
    ensures forall j :: 0 <= j < |week| ==> doses[j] == week[j].dose
  {
    Map(DoseOf, Entries(week))
  }

  /** An entry whose tablets are the decomposer's answer for its dose. */
  predicate Formed(e: DoseEntry, pills: seq<int>)
    requires ValidPillSet(pills)
  {
    e.dose >= 0 && Decompose(e.dose, pills) == Some(e.pills)
  }

  /** The pipeline of a successful request, step by step. */
  lemma SuccessfulRegimen(target: int, sel: FamilySelection, days: Option<int>)
    returns (entries: seq<DoseEntry>, sorted: seq<DoseEntry>)
    requires CalculateRegimen(Some(target), sel, days).Success?
    ensures target >= 0 && |AvailablePillSizes(sel)| > 0
    ensures DecomposeAll(EvenSplit(target), AvailablePillSizes(sel)) == Some(entries)
    ensures sorted == SortByComplexity(entries) && |sorted| == DaysPerWeek
    ensures CalculateRegimen(Some(target), sel, days).value.details == AssignDays(sorted)
    ensures forall k :: 0 <= k < |sorted| ==> Formed(sorted[k], AvailablePillSizes(sel))
  {
    var pills := AvailablePillSizes(sel);
    var split := EvenSplit(target);
    entries := DecomposeAll(split, pills).value;
    sorted := SortByComplexity(entries);
    EntriesFormed(split, pills, entries);
    ReorderedFormed(entries, sorted, pills);
  }

  /** The entries of a successful decomposition of non-negative doses are formed. */
  lemma EntriesFormed(doses: seq<int>, pills: seq<int>, entries: seq<DoseEntry>)
    requires ValidPillSet(pills)
    requires forall i :: 0 <= i < |doses| ==> doses[i] >= 0
    requires DecomposeAll(doses, pills) == Some(entries)
    ensures forall m :: 0 <= m < |entries| ==> Formed(entries[m], pills)
  {
  }

  lemma ReorderedFormed(entries: seq<DoseEntry>, sorted: seq<DoseEntry>, pills: seq<int>)
    requires ValidPillSet(pills)
    requires multiset(sorted) == multiset(entries)
    requires forall m :: 0 <= m < |entries| ==> Formed(entries[m], pills)
    ensures forall k :: 0 <= k < |sorted| ==> Formed(sorted[k], pills)
  {
    forall k | 0 <= k < |sorted|
      ensures Formed(sorted[k], pills)
    {
      assert sorted[k] in multiset(entries);
      var m :| 0 <= m < |entries| && entries[m] == sorted[k];
    }
  }

  /** What a formed entry's tablets satisfy. */
  lemma FormedEntry(e: DoseEntry, sel: FamilySelection)
    requires Formed(e, AvailablePillSizes(sel))
    ensures Sum(e.pills) == e.dose
    ensures NonIncreasing(e.pills)
    ensures |e.pills| <= PillCap + 1
    ensures forall x :: x in e.pills ==> Selected(sel, x)
  {
  }

  /** A day's tablets: the decomposer's answer for its dose, so drawn
      from the ticked families, adding up to the dose, largest first. */
  predicate DayAddsUp(p: DayPlan, sel: FamilySelection)
  {
    && p.dose >= 0
    && Sum(p.pills) == p.dose
    && NonIncreasing(p.pills)
    && |p.pills| <= PillCap + 1
    && forall x :: x in p.pills ==> Selected(sel, x)
  }

  lemma AssignedDaysAddUp(sorted: seq<DoseEntry>, sel: FamilySelection)
    requires |sorted| == DaysPerWeek
    requires forall k :: 0 <= k < |sorted| ==> Formed(sorted[k], AvailablePillSizes(sel))
    ensures forall j :: 0 <= j < DaysPerWeek ==> DayAddsUp(AssignDays(sorted)[j], sel)
  {
    var week := AssignDays(sorted);
    forall j | 0 <= j < DaysPerWeek
      ensures DayAddsUp(week[j], sel)
    {
      var e := sorted[PriorityRank(WeekOrder[j])];
      assert EntryOf(week[j]) == e;
      FormedEntry(e, sel);
    }
  }

  /** Every day of a regimen holds tablets of the ticked families that add
      up to its dose, largest first, at most eleven of them. */
  lemma RegimenDaysAddUp(target: int, sel: FamilySelection, days: Option<int>)
    ensures var r := CalculateRegimen(Some(target), sel, days);
      r.Success? ==>
        var week := r.value.details;
        && |week| == |WeekOrder|
        && (forall j :: 0 <= j < |week| ==> week[j].day == WeekOrder[j])
        && forall j :: 0 <= j < |week| ==> DayAddsUp(week[j], sel)
  {
    if CalculateRegimen(Some(target), sel, days).Success? {
      var entries, sorted := SuccessfulRegimen(target, sel, days);
      AssignedDaysAddUp(sorted, sel);
    }
  }

  lemma AssignedDoses(sorted: seq<DoseEntry>, entries: seq<DoseEntry>)
    requires |sorted| == DaysPerWeek && multiset(sorted) == multiset(entries)
    ensures multiset(Doses(AssignDays(sorted))) == multiset(Map(DoseOf, entries))
    ensures Sum(Doses(AssignDays(sorted))) == Sum(Map(DoseOf, entries))
  {
    var week := AssignDays(sorted);
    AssignDaysPermutes(sorted);
    MapPermutation(DoseOf, Entries(week), sorted);
    MapPermutation(DoseOf, sorted, entries);
    SumPermutation(Doses(week), Map(DoseOf, entries));
  }

  /** The days receive the seven doses of the even split in some order, so
      the week adds up to the target rounded to half milligrams. */
  lemma RegimenKeepsWeeklyDose(target: int, sel: FamilySelection, days: Option<int>)
    ensures var r := CalculateRegimen(Some(target), sel, days);
      r.Success? ==>
        var week := r.value.details;
        && multiset(Doses(week)) == multiset(EvenSplit(target))
        && Sum(Doses(week)) == RoundToNearestHalf(target)
  {
    if CalculateRegimen(Some(target), sel, days).Success? {
      var entries, sorted := SuccessfulRegimen(target, sel, days);
      DosesOfEntries(EvenSplit(target), AvailablePillSizes(sel), entries);
      AssignedDoses(sorted, entries);
    }
  }

  /** The entries of a successful decomposition carry the doses asked for. */
  lemma DosesOfEntries(doses: seq<int>, pills: seq<int>, entries: seq<DoseEntry>)
    requires ValidPillSet(pills)
    requires DecomposeAll(doses, pills) == Some(entries)
    ensures Map(DoseOf, entries) == doses
  {
  }

  /** Walking Sat, Sun, Fri, Thu, Wed, Tue, Mon, the tablet count never
      rises, and between days with equal counts the dose never rises. */
  lemma RegimenWeekendFirst(target: int, sel: FamilySelection, days: Option<int>)
    ensures var r := CalculateRegimen(Some(target), sel, days);
      r.Success? ==>
        var week := r.value.details;
        forall i, k :: 0 <= i < k < |PriorityOrder| ==>
          var a, b := week[DayIndex(PriorityOrder[i])], week[DayIndex(PriorityOrder[k])];
          |a.pills| > |b.pills| || (|a.pills| == |b.pills| && a.dose >= b.dose)
  {
    if CalculateRegimen(Some(target), sel, days).Success? {
      var entries, sorted := SuccessfulRegimen(target, sel, days);
      AssignedWeekendFirst(sorted);
    }
  }

  lemma AssignedWeekendFirst(sorted: seq<DoseEntry>)
    requires |sorted| == DaysPerWeek && SortedByComplexity(sorted)
    ensures var week := AssignDays(sorted);
      forall i, k :: 0 <= i < k < |PriorityOrder| ==>
        var a, b := week[DayIndex(PriorityOrder[i])], week[DayIndex(PriorityOrder[k])];
        |a.pills| > |b.pills| || (|a.pills| == |b.pills| && a.dose >= b.dose)
  {
    var week := AssignDays(sorted);
    forall i, k | 0 <= i < k < |PriorityOrder|
      ensures Before(EntryOf(week[DayIndex(PriorityOrder[i])]), EntryOf(week[DayIndex(PriorityOrder[k])]))
    {
      assert Before(sorted[i], sorted[k]);
    }
  }

  /** The supply lists exactly the strengths the week uses, each with the
      week's count scaled to the appointment and rounded up, or with the
      week's count when the day count is missing or not positive. */
  lemma RegimenSupply(target: int, sel: FamilySelection, days: Option<int>)
    ensures var r := CalculateRegimen(Some(target), sel, days);
      r.Success? ==>
        var plan := r.value;
        var used := Flatten(PillLists(plan.details));
        && (forall v :: v in plan.summary <==> exists j :: 0 <= j < |plan.details| && v in plan.details[j].pills)
        && (days.Some? && days.value > 0 ==> forall v :: v in plan.summary ==>
              plan.summary[v] * 7 >= Count(used, v) * days.value > (plan.summary[v] as int - 1) * 7)
        && (!(days.Some? && days.value > 0) ==> forall v :: v in plan.summary ==> plan.summary[v] == Count(used, v))
  {
    if CalculateRegimen(Some(target), sel, days).Success? {
      var entries, sorted := SuccessfulRegimen(target, sel, days);
    }
  }

  const TwoMgOnly := FamilySelection(true, false, false)
  const TwoAndFiveMg := FamilySelection(true, false, true)

  lemma TwoMgOnlyPills()
    ensures AvailablePillSizes(TwoMgOnly) == TwoMgFamily
  {
    var avail := AvailablePillSizes(TwoMgOnly);
    OnlyTwoMgSelected();
    assert StrictlyDecreasing(TwoMgFamily);
    StrictlyDecreasingUnique(avail, TwoMgFamily);
  }

  lemma OnlyTwoMgSelected()
    ensures forall v :: Selected(TwoMgOnly, v) <==> v in TwoMgFamily
  {
  }

  lemma TwoAndFiveMgPills()
    ensures AvailablePillSizes(TwoAndFiveMg) == [20, 10, 8, 5, 4, 2]
  {
    var listed := [20, 10, 8, 5, 4, 2];
    assert forall v :: v in listed <==> v in TwoMgFamily || v in FiveMgFamily;
    assert StrictlyDecreasing(listed);
    StrictlyDecreasingUnique(AvailablePillSizes(TwoAndFiveMg), listed);
  }

  /** A valid request has a regimen exactly when every daily dose of the
      even split can be formed. */
  lemma RegimenExists(target: int, sel: FamilySelection, days: Option<int>)
    requires !InvalidRequest(Some(target), sel)
    requires forall i :: 0 <= i < DaysPerWeek ==> Decompose(EvenSplit(target)[i], AvailablePillSizes(sel)).Some?
    ensures CalculateRegimen(Some(target), sel, days).Success?
  {
  }

  lemma NoRegimen(target: int, sel: FamilySelection, days: Option<int>, i: int)
    requires !InvalidRequest(Some(target), sel)
    requires 0 <= i < DaysPerWeek && Decompose(EvenSplit(target)[i], AvailablePillSizes(sel)).None?
    ensures CalculateRegimen(Some(target), sel, days) == Failure(NoRegimenPossible)
  {
  }

  /** Under 21 mg a day in half-milligram steps, as the even split of a
      weekly target up to 147 mg gives. */
  lemma SplitUpTo147Mg(target: int)
    requires 0 <= target <= 588
    ensures forall i :: 0 <= i < DaysPerWeek ==> 0 <= EvenSplit(target)[i] <= 84 && EvenSplit(target)[i] % 2 == 0
  {
    var h := HalfUnits(target);
    assert h <= 294;
    assert h == 7 * (h / 7) + h % 7;
    assert h % 7 > 0 ==> h / 7 <= 41;
  }

  /** With only the 2 mg family ticked, every weekly target up to 147 mg
      has a regimen: each daily dose is a multiple of 0.5 mg of at most
      21 mg. */
  lemma TwoMgFamilyCoversWeeklyTargets(target: int, days: Option<int>)
    requires 0 <= target <= 588
    ensures CalculateRegimen(Some(target), TwoMgOnly, days).Success?
  {
    TwoMgOnlyPills();
    SplitUpTo147Mg(target);
    var split := EvenSplit(target);
    forall i | 0 <= i < DaysPerWeek
      ensures Decompose(split[i], TwoMgFamily).Some?
    {
      TwoMgFamilyFormsHalfSteps(split[i]);
    }
    RegimenExists(target, TwoMgOnly, days);
  }

  /** The bound is exact: at 147.25 mg a week the first day needs 21.5 mg,
      which the 2 mg family cannot form within the tablet cap. */
  lemma TwoMgFamilyLimit(days: Option<int>)
    ensures CalculateRegimen(Some(589), TwoMgOnly, days) == Failure(NoRegimenPossible)
  {
    TwoMgOnlyPills();
    assert HalfUnits(589) == 295 && 295 / 7 == 42 && 295 % 7 == 1;
    assert EvenSplit(589)[0] == 86;
    CapBlocksTwentyOneAndAHalfMg();
    NoRegimen(589, TwoMgOnly, days, 0);
  }

  /** Ticking more tablets can take a regimen away: 10.5 mg a week has one
      with the 2 mg family alone but none once the 5 mg family is added. */
  lemma MoreTabletsCanBlockARegimen(days: Option<int>)
    ensures CalculateRegimen(Some(42), TwoMgOnly, days).Success?
    ensures CalculateRegimen(Some(42), TwoAndFiveMg, days) == Failure(NoRegimenPossible)
  {
    TwoMgFamilyCoversWeeklyTargets(42, days);
    TwoAndFiveMgPills();
    assert HalfUnits(42) == 21 && 21 / 7 == 3 && 21 % 7 == 0;
    assert EvenSplit(42)[0] == 6;
    GreedyMissesOneAndAHalfMg();
    NoRegimen(42, TwoAndFiveMg, days, 0);
  }
}
