/** The greedy pill decomposer: one daily dose broken into tablets,
    largest strength first, at most PillCap + 1 tablets. */
module Decomposer {
  import opened Seqs
  import opened Wrappers
  import opened Pills

  /** The source stops taking tablets as soon as the running count exceeds
      this value, so one more tablet than the cap can be taken. */
  const PillCap: nat := 10

  /** The tablets taken so far and the dose still to be covered. */
  datatype Run = Run(taken: seq<int>, remainder: int)

  /** Tablets already taken followed by the rest of a run. */
  function Prepend(taken: seq<int>, r: Run): Run
  {
    Run(taken + r.taken, r.remainder)
  }

  /** Every tablet in `taken` is one of the strengths in `pills`. */
  predicate DrawnFrom(taken: seq<int>, pills: seq<int>)
  {
    forall x :: x in taken ==> x in pills
  }

  /** The two nested loops of the decomposer, one tablet at a time, from
      strength `pills[0]` onwards with `rem` still to cover and `count`
      tablets already taken: a tablet that still fits is taken (the inner
      loop), one that does not passes on to the next strength (the outer
      loop), and once the count exceeds the cap both loops stop.  What a
      run guarantees is stated by `GreedyRun`. */
  function Greedy(pills: seq<int>, rem: int, count: nat): Run
    requires ValidPillSet(pills)
    requires count <= PillCap + 1
    decreases |pills|, PillCap + 1 - count
  {
    if |pills| == 0 || count > PillCap then Run([], rem)
    else if rem >= pills[0] then
      Prepend([pills[0]], Greedy(pills, rem - pills[0], count + 1))
    else
      SkipLargest(pills, []);
      Greedy(pills[1..], rem, count)
  }

  /** What the greedy walk guarantees: the tablets and the remainder add up
      to the dose, at most one tablet over the cap is taken, a
      non-negative dose is never overshot, a walk the cap did not stop
      leaves less than the smallest strength, and the tablets come from the
      set, largest first. */
  lemma {:induction false} GreedyRun(pills: seq<int>, rem: int, count: nat)
    requires ValidPillSet(pills)
    requires count <= PillCap + 1
    ensures var r := Greedy(pills, rem, count);
      && Sum(r.taken) + r.remainder == rem
      && count + |r.taken| <= PillCap + 1
      && (rem >= 0 ==> r.remainder >= 0)
      && (count + |r.taken| <= PillCap && |pills| > 0 ==> r.remainder < pills[|pills| - 1])
      && DrawnFrom(r.taken, pills) && NonIncreasing(r.taken)
    decreases |pills|, PillCap + 1 - count
  {
    if |pills| > 0 && count <= PillCap {
      if rem >= pills[0] {
        GreedyRun(pills, rem - pills[0], count + 1);
        TakeLargest(pills, Greedy(pills, rem - pills[0], count + 1).taken);
      } else {
        SkipLargest(pills, []);
        GreedyRun(pills[1..], rem, count);
        SkipLargest(pills, Greedy(pills[1..], rem, count).taken);
      }
    }
  }

  /** Taking the largest strength in front of a run drawn from the set. */
  lemma TakeLargest(pills: seq<int>, rest: seq<int>)
    requires ValidPillSet(pills) && |pills| > 0
    requires DrawnFrom(rest, pills) && NonIncreasing(rest)
    ensures Sum([pills[0]] + rest) == pills[0] + Sum(rest)
    ensures DrawnFrom([pills[0]] + rest, pills) && NonIncreasing([pills[0]] + rest)
  {
    var s := [pills[0]] + rest;
    assert s[1..] == rest;
    forall x | x in rest
      ensures x <= pills[0]
    {
      var j :| 0 <= j < |pills| && pills[j] == x;
    }
    forall i, j | 0 <= i < j < |s|
      ensures s[i] >= s[j]
    {
      assert s[j] == rest[j - 1] && rest[j - 1] in rest;
      if i > 0 {
        assert s[i] == rest[i - 1];
      }
    }
  }

  /** A run over the smaller strengths is drawn from the whole set. */
  lemma SkipLargest(pills: seq<int>, rest: seq<int>)
    requires ValidPillSet(pills) && |pills| > 0
    requires DrawnFrom(rest, pills[1..])
    ensures ValidPillSet(pills[1..])
    ensures DrawnFrom(rest, pills)
  {
    forall x | x in rest
      ensures x in pills
    {
      var j :| 0 <= j < |pills[1..]| && pills[1..][j] == x;
      assert pills[j + 1] == x;
    }
  }

  /** The tablets for one daily dose (`getBestPillsForDose`), or `None`
      when the greedy pass leaves part of the dose uncovered. */
  function Decompose(dose: int, pills: seq<int>): (r: Option<seq<int>>)
    requires ValidPillSet(pills)
    ensures dose == 0 ==> r == Some([])
    ensures dose != 0 && |pills| == 0 ==> r.None?
    ensures r.Some? ==> |r.value| <= PillCap + 1
    ensures r.Some? ==> NonIncreasing(r.value)
    ensures r.Some? ==> forall x :: x in r.value ==> x in pills
    ensures r.Some? && dose >= 0 ==> Sum(r.value) == dose
    ensures dose < 0 && |pills| > 0 ==> r == Some([])
    ensures r.None? && dose > 0 && |pills| > 0 ==>
      var g := Greedy(pills, dose, 0);
      g.remainder > 0 && (|g.taken| == PillCap + 1 || g.remainder < pills[|pills| - 1])
  {
    if dose == 0 then Some([])
    else if |pills| == 0 then None
    else
      var g := Greedy(pills, dose, 0);
      GreedyRun(pills, dose, 0);
      assert dose < 0 ==> g == Run([], dose) by {
        if dose < 0 { NegativeDoseTakesNothing(pills, dose, 0); }
      }
      if g.remainder > 0 then None else Some(g.taken)
  }

  /** A negative dose fits no tablet: the walk passes every strength over. */
  lemma {:induction false} NegativeDoseTakesNothing(pills: seq<int>, rem: int, count: nat)
    requires ValidPillSet(pills)
    requires count <= PillCap + 1
    requires rem < 0
    ensures Greedy(pills, rem, count) == Run([], rem)
    decreases |pills|
  {
    if |pills| > 0 && count <= PillCap {
      SkipLargest(pills, []);
      NegativeDoseTakesNothing(pills[1..], rem, count);
    }
  }

  /** A strength larger than what is left is passed over. */
  lemma SkipStrength(pills: seq<int>, rem: int, count: nat)
    requires ValidPillSet(pills) && |pills| > 0 && count <= PillCap
    requires rem < pills[0]
    ensures ValidPillSet(pills[1..])
    ensures Greedy(pills, rem, count) == Greedy(pills[1..], rem, count)
  {
    SkipLargest(pills, []);
  }

  /** A strength that still fits is taken. */
  lemma TakeStrength(pills: seq<int>, rem: int, count: nat)
    requires ValidPillSet(pills) && |pills| > 0 && count <= PillCap
    requires rem >= pills[0]
    ensures Greedy(pills, rem, count) == Prepend([pills[0]], Greedy(pills, rem - pills[0], count + 1))
  {
  }

  /** The inner loop: subtract one tablet of the largest strength at a
      time while it still fits, breaking as soon as the count exceeds the
      cap.  What it takes, followed by the walk from where it stopped, is
      the walk from where it started. */
  method TakeTablets(pills: seq<int>, rem0: int, total0: nat) returns (taken: seq<int>, remaining: int, total: nat)
    requires ValidPillSet(pills) && |pills| > 0 && total0 <= PillCap
    ensures total == total0 + |taken| <= PillCap + 1
    ensures taken == Repeat(pills[0], |taken|)
    ensures total > PillCap || remaining < pills[0]
    ensures Greedy(pills, rem0, total0) == Prepend(taken, Greedy(pills, remaining, total))
  {
    var d := pills[0];
    taken, remaining, total := [], rem0, total0;
    assert [] + Greedy(pills, rem0, total0).taken == Greedy(pills, rem0, total0).taken;
    while remaining >= d
      invariant total == total0 + |taken| <= PillCap
      invariant taken == Repeat(d, |taken|)
      invariant Greedy(pills, rem0, total0) == Prepend(taken, Greedy(pills, remaining, total))
      decreases PillCap - total
    {
      TakeStrength(pills, remaining, total);
      JoinRuns(taken, [d], Greedy(pills, remaining - d, total + 1));
      RepeatSnoc(d, |taken|);
      remaining := remaining - d;
      taken := taken + [d];
      total := total + 1;
      if total > PillCap {
        return;
      }
    }
  }

  /** Prepending in two steps is prepending the concatenation. */
  lemma JoinRuns(a: seq<int>, b: seq<int>, r: Run)
    ensures Prepend(a, Prepend(b, r)) == Prepend(a + b, r)
  {
    assert a + (b + r.taken) == (a + b) + r.taken;
  }

  lemma RepeatSnoc<T>(x: T, k: nat)
    ensures Repeat(x, k) + [x] == Repeat(x, k + 1)
  {
    if k > 0 {
      RepeatSnoc(x, k - 1);
    }
  }

  /** The nested loops of `getBestPillsForDose` as written: the outer
      loop walks the strengths and stops once the count exceeds the cap. */
  method GreedyLoop(dose: int, pills: seq<int>) returns (taken: seq<int>, remaining: int)
    requires ValidPillSet(pills)
    ensures Run(taken, remaining) == Greedy(pills, dose, 0)
  {
    remaining := dose;
    taken := [];
    var total: nat := 0;
    var i := 0;
    assert pills[i..] == pills;
    assert [] + Greedy(pills, dose, 0).taken == Greedy(pills, dose, 0).taken;
    while i < |pills|
      invariant 0 <= i <= |pills|
      invariant total == |taken| <= PillCap
      invariant ValidPillSet(pills[i..])
      invariant Greedy(pills, dose, 0) == Prepend(taken, Greedy(pills[i..], remaining, total))
    {
      var more, left, count := TakeTablets(pills[i..], remaining, total);
      JoinRuns(taken, more, Greedy(pills[i..], left, count));
      taken, remaining, total := taken + more, left, count;
      if total > PillCap {
        assert taken + [] == taken;
        break;
      }
      SkipStrength(pills[i..], remaining, total);
      assert pills[i..][1..] == pills[i + 1..];
      i := i + 1;
    }
    if i == |pills| {
      assert taken + [] == taken;
    }
  }

  /** `getBestPillsForDose` as a whole: the zero-dose and empty-set
      shortcuts, the nested loops, then the leftover check. */
  method BestPillsForDose(dose: int, pills: seq<int>) returns (r: Option<seq<int>>)
    requires ValidPillSet(pills)
    ensures r == Decompose(dose, pills)
  {
    if dose == 0 {
      return Some([]);
    }
    if |pills| == 0 {
      return None;
    }
    var taken, remaining := GreedyLoop(dose, pills);
    if remaining > 0 {
      return None;
    }
    return Some(taken);
  }

  /** Where the walk stands once the largest strength is done with, `b`
      left and `count` tablets taken: stopped at the cap, or going on with
      the smaller strengths. */
  function AfterLargest(pills: seq<int>, b: int, count: nat): Run
    requires ValidPillSet(pills) && |pills| > 0 && count <= PillCap + 1
  {
    SkipLargest(pills, []);
    if count > PillCap then Run([], b) else Greedy(pills[1..], b, count)
  }

  /** `a` tablets of the largest strength, then the walk goes on with the
      rest `b` below that strength, unless the cap stopped it. */
  lemma {:induction false} TakeMany(pills: seq<int>, a: nat, b: int, count: nat, rem: int)
    requires ValidPillSet(pills) && |pills| > 0
    requires 0 <= b < pills[0] && count + a <= PillCap + 1
    requires rem == Sum(Repeat(pills[0], a)) + b
    ensures ValidPillSet(pills[1..])
    ensures Greedy(pills, rem, count) == Prepend(Repeat(pills[0], a), AfterLargest(pills, b, count + a))
    decreases a
  {
    SkipLargest(pills, []);
    if a == 0 {
      TakeNone(pills, b, count);
    } else {
      var d := pills[0];
      RepeatCons(d, a);
      TakeStrength(pills, rem, count);
      TakeMany(pills, a - 1, b, count + 1, rem - d);
      var after := AfterLargest(pills, b, count + a);
      assert count + 1 + (a - 1) == count + a;
      assert Greedy(pills, rem - d, count + 1) == Prepend(Repeat(d, a - 1), after);
      JoinRuns([d], Repeat(d, a - 1), after);
    }
  }

  lemma TakeNone(pills: seq<int>, b: int, count: nat)
    requires ValidPillSet(pills) && |pills| > 0
    requires 0 <= b < pills[0] && count <= PillCap + 1
    ensures Greedy(pills, b, count) == Prepend([], AfterLargest(pills, b, count))
  {
    SkipLargest(pills, []);
    if count <= PillCap {
      SkipStrength(pills, b, count);
    }
    assert [] + AfterLargest(pills, b, count).taken == AfterLargest(pills, b, count).taken;
  }

  /** `a` copies of a positive strength: the first, then the others, whose
      total is not negative. */
  lemma RepeatCons(d: int, a: nat)
    requires d > 0 && a > 0
    ensures Repeat(d, a) == [d] + Repeat(d, a - 1)
    ensures Sum(Repeat(d, a)) == d + Sum(Repeat(d, a - 1)) && Sum(Repeat(d, a - 1)) >= 0
  {
    assert ([d] + Repeat(d, a - 1))[1..] == Repeat(d, a - 1);
    SumRepeat(d, a - 1);
    assert (a - 1) * d >= 0;
  }

  lemma TwoMgFamilyValid()
    ensures ValidPillSet(TwoMgFamily) && TwoMgFamily[0] == 8 && TwoMgFamily[1..] == [4, 2]
  {
  }

  /** With the 2 mg family, every dose in 0.5 mg steps up to 21 mg is
      formed: whole 2 mg tablets, then at most one 1 mg and one 0.5 mg. */
  lemma TwoMgFamilyFormsHalfSteps(dose: int)
    requires 0 <= dose <= 84 && dose % 2 == 0
    ensures Decompose(dose, TwoMgFamily).Some?
  {
    if dose > 0 {
      TwoMgFamilyValid();
      // dose = 8a + 2c: a two-milligram tablets, then the rest in 1 mg and 0.5 mg
      var a, c := dose / 8, (dose / 2) % 4;
      SumRepeat(8, a);
      assert dose == Sum(Repeat(8, a)) + 2 * c;
      TakeMany(TwoMgFamily, a, 2 * c, 0, dose);
      OneAndHalfMgCoverRest([4, 2], c, a);
      CoveredDoseIsDecomposed(dose, TwoMgFamily);
    }
  }

  /** After `count` 2 mg tablets, the 1 mg and 0.5 mg tablets cover any
      remaining 2c quarter-milligrams below 2 mg. */
  lemma OneAndHalfMgCoverRest(small: seq<int>, c: int, count: nat)
    requires small == [4, 2]
    requires 0 <= c < 4 && 4 * count + c <= 42
    ensures ValidPillSet(small)
    ensures Greedy(small, 2 * c, count).remainder == 0
  {
    var k2 := if c >= 2 then 1 else 0;
    var k3 := c - 2 * k2;
    SumRepeat(4, k2);
    SumRepeat(2, k3);
    assert 2 * c == Sum(Repeat(4, k2)) + 2 * k3;
    TakeMany(small, k2, 2 * k3, count, 2 * c);
    assert small[1..] == [2];
    if count + k2 <= PillCap {
      assert 2 * k3 == Sum(Repeat(2, k3)) + 0;
      TakeMany(small[1..], k3, 0, count + k2, 2 * k3);
      assert small[1..][1..] == [];
    }
  }

  /** Decomposition succeeds exactly when the greedy pass covers a
      positive dose completely. */
  lemma CoveredDoseIsDecomposed(dose: int, pills: seq<int>)
    requires ValidPillSet(pills) && dose > 0 && |pills| > 0
    ensures Decompose(dose, pills).Some? <==> Greedy(pills, dose, 0).remainder == 0
  {
    GreedyRun(pills, dose, 0);
  }

  /** 22 mg a day is eleven 2 mg tablets: the count check runs before the
      strength is tried, so the eleventh tablet still goes in. */
  lemma ElevenTabletsFitUnderTheCap()
    ensures Decompose(88, TwoMgFamily) == Some(Repeat(8, 11))
  {
    TwoMgFamilyValid();
    ElevenTablets(TwoMgFamily, 88);
  }

  lemma ElevenTablets(pills: seq<int>, dose: int)
    requires pills == TwoMgFamily && dose == 88
    ensures ValidPillSet(pills)
    ensures Decompose(dose, pills) == Some(Repeat(8, 11))
  {
    TwoMgFamilyValid();
    SumRepeat(8, 11);
    assert dose == Sum(Repeat(pills[0], 11)) + 0;
    TakeMany(pills, 11, 0, 0, dose);
    assert Repeat(8, 11) + [] == Repeat(8, 11);
  }

  /** 21.5 mg a day is out of reach of the 2 mg family: ten 2 mg tablets and
      one 1 mg reach the cap with 0.5 mg still uncovered. */
  lemma CapBlocksTwentyOneAndAHalfMg()
    ensures Decompose(86, TwoMgFamily).None?
  {
    TwoMgFamilyValid();
    CapBlocks(TwoMgFamily, 86);
  }

  lemma CapBlocks(pills: seq<int>, dose: int)
    requires pills == TwoMgFamily && dose == 86
    ensures ValidPillSet(pills)
    ensures Decompose(dose, pills).None?
  {
    TwoMgFamilyValid();
    SumRepeat(8, 10);
    assert dose == Sum(Repeat(pills[0], 10)) + 6;
    TakeMany(pills, 10, 6, 0, dose);
    CapReachedOnOneMg(pills[1..], 6);
    CoveredDoseIsDecomposed(dose, pills);
  }

  lemma CapReachedOnOneMg(small: seq<int>, rem: int)
    requires small == [4, 2] && rem == 6
    ensures ValidPillSet(small)
    ensures Greedy(small, rem, 10).remainder == 2
  {
    SumRepeat(4, 1);
    assert rem == Sum(Repeat(small[0], 1)) + 2;
    TakeMany(small, 1, 2, 10, rem);
  }

  /** The greedy pass is not complete: with the 2 mg and 5 mg families,
      1.5 mg takes a 1.25 mg tablet first and is left 0.25 mg short,
      although 1 mg + 0.5 mg would form it. */
  lemma GreedyMissesOneAndAHalfMg()
    ensures Decompose(6, [20, 10, 8, 5, 4, 2]).None?
    ensures Sum([4, 2]) == 6 && 4 in [20, 10, 8, 5, 4, 2] && 2 in [20, 10, 8, 5, 4, 2]
  {
    MissedDose([20, 10, 8, 5, 4, 2], 6);
  }

  lemma MissedDose(pills: seq<int>, dose: int)
    requires pills == [20, 10, 8, 5, 4, 2] && dose == 6
    ensures ValidPillSet(pills)
    ensures Decompose(dose, pills).None?
  {
    BothFamiliesValid(pills);
    SkipLargeStrengths(pills, dose);
    OneAndAQuarterFirst(pills[3..], dose);
    CoveredDoseIsDecomposed(dose, pills);
  }

  lemma BothFamiliesValid(pills: seq<int>)
    requires pills == [20, 10, 8, 5, 4, 2]
    ensures ValidPillSet(pills)
  {
  }

  /** 5, 2.5 and 2 mg are all above 1.5 mg and are passed over. */
  lemma SkipLargeStrengths(pills: seq<int>, dose: int)
    requires pills == [20, 10, 8, 5, 4, 2] && dose == 6
    ensures ValidPillSet(pills[3..])
    ensures Greedy(pills, dose, 0) == Greedy(pills[3..], dose, 0)
  {
    BothFamiliesValid(pills);
    SkipStrength(pills, dose, 0);
    assert pills[1..][1..] == pills[2..];
    SkipStrength(pills[1..], dose, 0);
    assert pills[2..][1..] == pills[3..];
    SkipStrength(pills[2..], dose, 0);
  }

  /** One 1.25 mg tablet leaves 0.25 mg, which neither 1 mg nor 0.5 mg covers. */
  lemma OneAndAQuarterFirst(tail: seq<int>, dose: int)
    requires tail == [5, 4, 2] && dose == 6
    ensures ValidPillSet(tail)
    ensures Greedy(tail, dose, 0).remainder == 1
  {
    SumRepeat(5, 1);
    assert dose == Sum(Repeat(tail[0], 1)) + 1;
    TakeMany(tail, 1, 1, 0, dose);
    QuarterLeftOver(tail[1..]);
  }

  lemma QuarterLeftOver(small: seq<int>)
    requires small == [4, 2]
    ensures ValidPillSet(small)
    ensures Greedy(small, 1, 1).remainder == 1
  {
    SkipStrength(small, 1, 1);
    SkipStrength(small[1..], 1, 1);
    assert small[1..][1..] == [];
  }
}
