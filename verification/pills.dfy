/** Warfarin tablet strengths and the pill set offered to the regimen
    synthiser.  Every amount is an integer number of quarter-milligrams
    (1 = 0.25 mg), so 2 mg is 8 and 1.25 mg is 5. */
module Pills {
  import opened Seqs

  /** One quarter-milligram; every tablet strength and dose is a multiple. */
  const QuartersPerMg: int := 4

  /** The three physical tablets and the halves and quarters cut from them. */
  const TwoMgFamily: seq<int> := [8, 4, 2]        // 2, 1, 0.5 mg
  const ThreeMgFamily: seq<int> := [12, 6, 3]     // 3, 1.5, 0.75 mg
  const FiveMgFamily: seq<int> := [20, 10, 5]     // 5, 2.5, 1.25 mg

  /** Every strength that has a picture, largest first. */
  const AllStrengths: seq<int> := [20, 12, 10, 8, 6, 5, 4, 3, 2]

  /** Which of the three tablet checkboxes are ticked. */
  datatype FamilySelection = FamilySelection(two: bool, three: bool, five: bool)

  /** A strength belongs to the selection when one of the ticked families lists it. */
  predicate Selected(sel: FamilySelection, v: int)
  {
    || (sel.two && v in TwoMgFamily)
    || (sel.three && v in ThreeMgFamily)
    || (sel.five && v in FiveMgFamily)
  }

  /** A pill set the greedy decomposer accepts: positive strengths,
      largest first, none repeated. */
  predicate ValidPillSet(pills: seq<int>)
  {
    && StrictlyDecreasing(pills)
    && forall i :: 0 <= i < |pills| ==> pills[i] > 0
  }

  /** `strengths` filtered by membership in the selection, order kept
      (the source's `filter(pill => selectedAvailablePills.has(pill.value))`). */
  function KeepSelected(strengths: seq<int>, sel: FamilySelection): (r: seq<int>)
    ensures forall v :: v in r <==> v in strengths && Selected(sel, v)
    ensures StrictlyDecreasing(strengths) ==> StrictlyDecreasing(r)
  {
    if |strengths| == 0 then []
    else
      var rest := KeepSelected(strengths[1..], sel);
      assert forall v :: v in strengths[1..] ==> v in strengths;
      assert StrictlyDecreasing(strengths) ==> StrictlyDecreasing(strengths[1..]);
      assert StrictlyDecreasing(strengths) ==>
        forall v :: v in rest ==> v in strengths[1..] && v < strengths[0];
      if Selected(sel, strengths[0]) then
        assert StrictlyDecreasing(strengths) ==> StrictlyDecreasing([strengths[0]] + rest) by {
          if StrictlyDecreasing(strengths) {
            ConsStrictlyDecreasing(strengths[0], rest);
          }
        }
        [strengths[0]] + rest
      else rest
  }

  /** The strengths of the ticked families: the picture list filtered by
      membership in the union of the families.  The source then sorts the
      result by value, descending; the filtered list is already in that
      order, so the sort leaves it unchanged. */
  function AvailablePillSizes(sel: FamilySelection): (pills: seq<int>)
    ensures forall v :: v in pills <==> Selected(sel, v)
    ensures ValidPillSet(pills)
    ensures |pills| == 0 <==> !sel.two && !sel.three && !sel.five
  {
    var pills := KeepSelected(AllStrengths, sel);
    FamiliesAreListed();
    AllStrengthsDecreasing();
    assert forall i :: 0 <= i < |pills| ==> pills[i] in pills;
    SelectionEmptiness(sel, pills);
    pills
  }

  lemma FamiliesAreListed()
    ensures forall v :: v in TwoMgFamily ==> v in AllStrengths
    ensures forall v :: v in ThreeMgFamily ==> v in AllStrengths
    ensures forall v :: v in FiveMgFamily ==> v in AllStrengths
  {
  }

  lemma AllStrengthsDecreasing()
    ensures StrictlyDecreasing(AllStrengths)
  {
  }

  lemma SelectionEmptiness(sel: FamilySelection, pills: seq<int>)
    requires forall v :: v in pills <==> Selected(sel, v)
    ensures |pills| == 0 <==> !sel.two && !sel.three && !sel.five
  {
    if |pills| > 0 {
      assert Selected(sel, pills[0]);
    }
    if sel.two {
      assert Selected(sel, 8);
    } else if sel.three {
      assert Selected(sel, 12);
    } else if sel.five {
      assert Selected(sel, 20);
    }
  }
}
