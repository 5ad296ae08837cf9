/** The even split of a weekly warfarin dose into seven daily doses in
    half-milligram steps.  Amounts are quarter-milligrams, so a half
    milligram is 2 and every daily dose is even. */
module DoseSplit {
  import opened Seqs

  const DaysPerWeek: nat := 7

  /** `Math.round(mg * 2)` for an amount of `q` quarter-milligrams: the
      nearest whole number of half-milligrams, halves rounded up. */
  function HalfUnits(q: int): (h: int)
    ensures 2 * h - 1 <= q <= 2 * h
  {
    (q + 1) / 2
  }

  /** `roundToNearestHalf` on quarter-milligram amounts, the only ones the
      regimen passes: the nearest multiple of 0.5 mg, ties upward. */
  function RoundToNearestHalf(q: int): (r: int)
    ensures r % 2 == 0
    ensures r - 1 <= q <= r
    ensures q % 2 == 0 ==> r == q
  {
    2 * HalfUnits(q)
  }

  /** The source's loop: each of `n` days gets `base` half-milligrams,
      plus one more while `extra` is still positive; the result is in
      quarter-milligrams. */
  function Distribute(base: int, extra: int, n: nat): (days: seq<int>)
    decreases n
  {
    if n == 0 then []
    else if extra > 0 then [2 * (base + 1)] + Distribute(base, extra - 1, n - 1)
    else [2 * base] + Distribute(base, extra, n - 1)
  }

  /** Closed form of the loop: the first `extra` days carry the extra half. */
  lemma {:induction false} DistributeShape(base: int, extra: int, n: nat)
    ensures |Distribute(base, extra, n)| == n
    ensures forall i :: 0 <= i < n ==>
      Distribute(base, extra, n)[i] == 2 * base + (if i < extra then 2 else 0)
    decreases n
  {
    if n > 0 {
      var e := if extra > 0 then extra - 1 else extra;
      DistributeShape(base, e, n - 1);
      var d := Distribute(base, extra, n);
      assert d[1..] == Distribute(base, e, n - 1);
      forall i | 1 <= i < n
        ensures d[i] == 2 * base + (if i < extra then 2 else 0)
      {
        assert d[i] == d[1..][i - 1];
      }
    }
  }

  /** The loop hands out exactly `extra` extra halves when `extra <= n`. */
  lemma {:induction false} DistributeSum(base: int, extra: int, n: nat)
    requires 0 <= extra <= n
    ensures Sum(Distribute(base, extra, n)) == 2 * (n * base + extra)
    decreases n
  {
    if n > 0 {
      var e := if extra > 0 then extra - 1 else extra;
      DistributeSum(base, e, n - 1);
      assert Distribute(base, extra, n)[1..] == Distribute(base, e, n - 1);
    }
  }

  /** The seven daily doses of a weekly target (`dosesForDistribution`):
      the target rounded to whole halves is shared out so that the days
      differ by at most half a milligram, larger days first. */
  function EvenSplit(target: int): (days: seq<int>)
    requires target >= 0
    ensures |days| == DaysPerWeek
    ensures forall i :: 0 <= i < DaysPerWeek ==>
      days[i] == 2 * (HalfUnits(target) / 7) + (if i < HalfUnits(target) % 7 then 2 else 0)
    ensures forall i :: 0 <= i < |days| ==> days[i] >= 0 && days[i] % 2 == 0
    ensures NonIncreasing(days)
    ensures Sum(days) == RoundToNearestHalf(target)
    ensures days[0] - days[DaysPerWeek - 1] <= 2
  {
    var h := HalfUnits(target);
    var base, extra := h / 7, h % 7;
    var days := Distribute(base, extra, DaysPerWeek);
    DistributeShape(base, extra, DaysPerWeek);
    DistributeSum(base, extra, DaysPerWeek);
    EvenShape(base, extra, days);
    days
  }

  /** Seven days of `base` halves, the first `extra` with one more. */
  lemma EvenShape(base: int, extra: int, days: seq<int>)
    requires base >= 0 && 0 <= extra < 7 && |days| == DaysPerWeek
    requires forall i :: 0 <= i < DaysPerWeek ==> days[i] == 2 * base + (if i < extra then 2 else 0)
    ensures forall i :: 0 <= i < |days| ==> days[i] >= 0 && days[i] % 2 == 0
    ensures NonIncreasing(days)
    ensures days[0] - days[DaysPerWeek - 1] <= 2
  {
    forall i | 0 <= i < |days|
      ensures days[i] % 2 == 0
    {
      assert days[i] == 2 * (base + if i < extra then 1 else 0);
    }
  }

  /** One day of the loop: the first day gets the extra half while any is left. */
  lemma DistributeStep(base: int, extra: int, n: nat, daily: int, left: int)
    requires n > 0
    requires extra > 0 ==> daily == base + 1 && left == extra - 1
    requires extra <= 0 ==> daily == base && left == extra
    ensures Distribute(base, extra, n) == [2 * daily] + Distribute(base, left, n - 1)
  {
  }

  /** The `for` loop of the source, with its decrementing remainder. */
  method SplitWeek(target: int) returns (days: seq<int>)
    requires target >= 0
    ensures days == EvenSplit(target)
  {
    var h := HalfUnits(target);
    var base, extra := h / 7, h % 7;
    var remainder := extra;
    days := [];
    var i := 0;
    while i < DaysPerWeek
      invariant 0 <= i <= DaysPerWeek
      invariant days + Distribute(base, remainder, DaysPerWeek - i) == Distribute(base, extra, DaysPerWeek)
    {
      ghost var before := remainder;
      var daily := base;
      if remainder > 0 {
        daily := daily + 1;
        remainder := remainder - 1;
      }
      DistributeStep(base, before, DaysPerWeek - i, daily, remainder);
      AppendDay(days, 2 * daily, Distribute(base, remainder, DaysPerWeek - i - 1));
      days := days + [2 * daily];
      i := i + 1;
    }
    assert days + Distribute(base, remainder, 0) == days;
  }

  lemma AppendDay(days: seq<int>, d: int, rest: seq<int>)
    ensures (days + [d]) + rest == days + ([d] + rest)
  {
  }
}
