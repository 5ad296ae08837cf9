# Clinical calculators: warfarin regimen, drug tables, body weight and CrCl

This Dafny project models the computational core of three browser
calculators from a pharmacy web site.

- **Warfarin weekly regimen** (`warfarin-calculator.js`):
  - Only the tablet strengths of the ticked tablet families are used.
  - The weekly target is rounded to half milligrams and shared over seven days as evenly as possible.
  - Each daily dose is broken into tablets by a greedy pass. The pass goes largest strength first and takes at most eleven tablets.
  - The whole request fails if any day cannot be formed.
  - Days are sorted by tablet count, then by dose, and handed out Saturday, Sunday, Friday, ... Monday.
  - The tablets used in a week are counted and scaled to the appointment length, rounded up.
  - The summary restates those counts as base tablets of each family.
- **Pregnancy and lactation tables** (`preg-lactation.js`):
  - There are two tables: the restricted-drug table and the treatment-guideline table.
  - Their rows are filtered by a drug selection or a disease selection.
  - Both are paged with a clamped current page, a five-link window with ellipses, and a "showing x to y of n" line.
  - The drug table numbers the references cited on the current page, in order of first citation.
- **Body weight and creatinine clearance** (`bwandcrclcalculator.js`):
  - Body-weight panel: Devine ideal body weight, the actual weight compared with it (±10%), adjusted body weight, and BMI with the Asian categories.
  - Creatinine-clearance panel: the Cockcroft–Gault estimate with creatinine in mg/dL or µmol/L.
  - Each panel has a blank / "insufficient data" / value gate.

Modelling conventions:

- **Warfarin amounts** are integers counting quarter-milligrams: 1 = 0.25 mg, 2 mg = 8. Every tablet strength lies on that grid. So do the doses the even split produces, and the decomposer only ever sees those.
- **Failed number parses.** A `parseFloat` or `parseInt` that yields `NaN` is `Option.None`. A creatinine-clearance box distinguishes "left empty" (`Entry.Empty`) from "typed but not a number", because the blank gate looks at the raw text.
- **Sex.** The calculators test `gender === 'male'` and treat every other non-empty value as female. The model has `Male | Female`, with `None` for the unselected box.
- **Pages and page size.** Page size is `'all'` or a positive row count. Pages are 1-based. JavaScript's `Array.prototype.slice` is modelled exactly, negative and out-of-range indices included (`Pagination.JsSlice`).
- **Reference numbers.** The footnote counter `refCounter` always equals the length of the reference list plus one, so the model uses the list length.
- **Results and errors.** Operations are pure functions returning `Option`/`Result` values. The two loops whose shape matters also have methods that mirror the source:
  - the tablet loop (`Decomposer.GreedyLoop`, `Decomposer.TakeTablets`);
  - the even split (`DoseSplit.SplitWeek`).

  Each method is proved equal to its functional definition.

## Model

| member | source | states |
|---|---|---|
| DoseSplit.HalfUnits | assets/js/warfarin-calculator.js:487 | `Math.round(target * 2)` on the quarter grid: the whole number of half-milligrams nearest the target, ties upward |
| DoseSplit.RoundToNearestHalf | assets/js/warfarin-calculator.js:48-50 | for amounts on the quarter-milligram grid (the only ones the regimen produces): the result is a multiple of 0.5 mg, at most 0.25 mg above the input and not below it; amounts already on the half grid are unchanged |
| DoseSplit.DistributeShape | assets/js/warfarin-calculator.js:491-498 | the distribution loop gives every day the base share, and exactly the first `remainder` days get one extra half milligram |
| DoseSplit.DistributeSum | assets/js/warfarin-calculator.js:487-498 | the loop hands out exactly the remainder, so the days add up to base × n plus the remainder |
| DoseSplit.EvenSplit | assets/js/warfarin-calculator.js:486-498 | seven non-negative daily doses on the half grid, non-increasing, at most 0.5 mg apart, summing to the target rounded to the nearest half milligram |
| DoseSplit.SplitWeek | assets/js/warfarin-calculator.js:486-498 | the `for` loop with its decrementing remainder produces exactly `EvenSplit` |
| Pills.KeepSelected | assets/js/warfarin-calculator.js:413 | the filter keeps exactly the strengths of the ticked families, in the original (descending) order |
| Pills.AvailablePillSizes | assets/js/warfarin-calculator.js:392-417 | the pill set holds exactly the strengths of the ticked families, strictly decreasing and positive, and is empty exactly when no family is ticked |
| Decomposer.GreedyRun | assets/js/warfarin-calculator.js:435-443 | the tablets taken plus the remainder equal the dose; at most eleven tablets; no overshoot; a walk not stopped by the cap leaves less than the smallest strength; tablets are from the set, largest first |
| Decomposer.NegativeDoseTakesNothing | assets/js/warfarin-calculator.js:435-443 | a negative dose fits no strength, so the walk takes no tablet |
| Decomposer.Decompose | assets/js/warfarin-calculator.js:421-458 | a zero dose needs no tablets; a non-zero dose with no strengths fails; a success sums to the dose with at most eleven tablets from the set, largest first; a failure leaves part of the dose uncovered, because of the cap or the smallest strength |
| Decomposer.TakeTablets | assets/js/warfarin-calculator.js:436-441 | the inner `while` takes copies of one strength until it no longer fits or the count passes ten, and hands over to the same walk |
| Decomposer.GreedyLoop | assets/js/warfarin-calculator.js:435-443 | the two nested loops compute the greedy walk, including the early exit at the cap |
| Decomposer.BestPillsForDose | assets/js/warfarin-calculator.js:421-458 | `getBestPillsForDose` as written (shortcuts, loops, leftover check) returns exactly `Decompose` |
| Decomposer.CoveredDoseIsDecomposed | assets/js/warfarin-calculator.js:445-448 | a positive dose is formed exactly when the greedy walk leaves nothing over |
| Decomposer.TwoMgFamilyFormsHalfSteps | assets/js/warfarin-calculator.js:421-458 | with the 2 mg family every daily dose from 0 to 21 mg in 0.5 mg steps is formed |
| Decomposer.ElevenTabletsFitUnderTheCap | assets/js/warfarin-calculator.js:436-442 | the count test comes after the tablet is taken, so 22 mg is formed from eleven 2 mg tablets |
| Decomposer.CapBlocksTwentyOneAndAHalfMg | assets/js/warfarin-calculator.js:436-448 | 21.5 mg fails with the 2 mg family: the cap stops the walk with 0.5 mg uncovered |
| Decomposer.GreedyMissesOneAndAHalfMg | assets/js/warfarin-calculator.js:435-448 | the greedy pass is incomplete: with the 2 mg and 5 mg families, 1.5 mg fails although 1 mg + 0.5 mg forms it |
| Regimen.Insert | assets/js/warfarin-calculator.js:526-531 | inserting an entry adds exactly that entry to the multiset |
| Regimen.InsertKeepsOrder | assets/js/warfarin-calculator.js:526-531 | inserting into a list ordered by the comparator (more tablets first, then the larger dose) keeps it ordered |
| Regimen.SortByComplexity | assets/js/warfarin-calculator.js:524-531 | the sort returns a permutation of the entries, ordered by tablet count descending and then by dose descending |
| Regimen.DecomposeAll | assets/js/warfarin-calculator.js:502-513 | every day succeeds exactly when each daily dose decomposes, and each entry then carries its dose and the decomposer's tablets |
| Regimen.AssignDays | assets/js/warfarin-calculator.js:533-547 | the i-th sorted entry goes to the i-th day of Saturday, Sunday, Friday, …, Monday, stored at that day's Monday-first position |
| Regimen.AssignDaysPermutes | assets/js/warfarin-calculator.js:538-547 | the week holds exactly the sorted entries, each on one day |
| Regimen.CalculateRegimen | assets/js/warfarin-calculator.js:460-569 | the invalid-input error occurs exactly for a NaN or negative target or no ticked family; the no-regimen error occurs exactly when some daily dose of the even split cannot be formed |
| Regimen.SuccessfulRegimen | assets/js/warfarin-calculator.js:473-547 | a successful request went through the gate, the even split, the decomposition, the sort and the assignment, and every sorted entry is formed by the decomposer |
| Regimen.RegimenDaysAddUp | assets/js/warfarin-calculator.js:502-547 | every day's tablets come from the ticked families, add up to that day's dose, are largest first and number at most eleven |
| Regimen.RegimenKeepsWeeklyDose | assets/js/warfarin-calculator.js:486-547 | the week's doses are a permutation of the even split and add up to the target rounded to the nearest half milligram |
| Regimen.RegimenWeekendFirst | assets/js/warfarin-calculator.js:524-547 | read Sat, Sun, Fri, …, Mon, the tablet count never rises, and between equal counts the dose never rises |
| Regimen.RegimenSupply | assets/js/warfarin-calculator.js:548-564 | the supply lists exactly the strengths the week uses; each count is the weekly count × days / 7 rounded up, or the weekly count when the day count is missing or not positive |
| Regimen.RegimenExists | assets/js/warfarin-calculator.js:510-513 | a valid request whose seven daily doses all decompose yields a regimen |
| Regimen.NoRegimen | assets/js/warfarin-calculator.js:510-522 | a valid request with one daily dose that does not decompose yields the no-regimen error |
| Regimen.TwoMgFamilyCoversWeeklyTargets | assets/js/warfarin-calculator.js:486-513 | with only the 2 mg family, every weekly target from 0 to 147 mg has a regimen |
| Regimen.TwoMgFamilyLimit | assets/js/warfarin-calculator.js:486-522 | the 147 mg bound is exact: 147.25 mg a week has no regimen with the 2 mg family |
| Regimen.MoreTabletsCanBlockARegimen | assets/js/warfarin-calculator.js:399-522 | ticking more families can remove a regimen: 10.5 mg a week works with the 2 mg family alone but not with the 2 mg and 5 mg families |
| Supply.Tally | assets/js/warfarin-calculator.js:548-550 | the tally has a key exactly for each strength in the list, mapped to its number of occurrences |
| Supply.WeeklyUsage | assets/js/warfarin-calculator.js:538-551 | the weekly counts have a key exactly for each strength used on some day, mapped to its number of tablets over the week |
| Supply.PeriodSummary | assets/js/warfarin-calculator.js:553-564 | same strengths as the week; for a positive day count each count c becomes the least n with 7n ≥ c × days; otherwise the weekly counts |
| Supply.OneWeekPeriodIsWeekly | assets/js/warfarin-calculator.js:555-560 | a seven-day appointment needs exactly one week's tablets |
| Supply.WholeWeeksScaleExactly | assets/js/warfarin-calculator.js:555-560 | an appointment of k whole weeks needs exactly k times the weekly count of every strength |
| Supply.PeriodSummaryMonotone | assets/js/warfarin-calculator.js:555-560 | a longer appointment never needs fewer tablets of any strength |
| Supply.FamilyTotal | assets/js/warfarin-calculator.js:583-595 | a family's quarter-milligram total is non-negative and is zero exactly when none of its strengths is used |
| Supply.TallyFamilyTotal | assets/js/warfarin-calculator.js:583-595 | gathered from the tally of a list of tablets, a family's total equals the sum of that family's tablets in the list, counted with multiplicity: the milligrams of the family |
| Supply.DisplayCoversFamilyMilligrams | assets/js/warfarin-calculator.js:576-626 | for the tally of a list of tablets, each family has a line exactly when some of its tablets are in the list, and the line's base-tablet count is the least whose milligrams cover those tablets |
| Supply.FamilyItem | assets/js/warfarin-calculator.js:600-614 | no line for a zero total; otherwise one line whose base-tablet count is the least that covers the total |
| Supply.NormalizeForDisplay | assets/js/warfarin-calculator.js:576-626 | at most one line per family, in 5 mg, 3 mg, 2 mg order; each family with milligrams gets a line with enough base tablets to cover them, and a family without gets none |
| Pagination.PageCount | assets/js/preg-lactation.js:69 | one page for `'all'`; otherwise the least page count whose pages hold every row, zero exactly for an empty table |
| Pagination.ClampPage | assets/js/preg-lactation.js:71 | the page is kept or set to the last page; it is 0 only without pages, never past the last page, and in range for any request ≥ 1 |
| Pagination.JsSlice | assets/js/preg-lactation.js:73-75 | `slice` returns the plain subsequence for in-range indices, at most `end - start` elements, nothing for an empty or reversed range, and only elements of the array |
| Pagination.PageRows | assets/js/preg-lactation.js:73-75 | the whole table for `'all'`; otherwise at most n rows, namely the rows at positions (page-1)·n up to page·n, cut at the table's end |
| Pagination.GuidelinePageRows | assets/js/preg-lactation.js:424-426 | the guideline table's page never has more rows than the page size |
| Pagination.GuidelinePagesMatchDrugPages | assets/js/preg-lactation.js:419-426 | the guideline table cuts pages exactly like the drug table, including `'all'`, where its start index is NaN and `slice` reads it as 0 |
| Pagination.Paginate | assets/js/preg-lactation.js:68-75 | the sequence of all pages has one entry per page |
| Pagination.PaginateCoversRows | assets/js/preg-lactation.js:68-75 | reading the pages in order gives back every row exactly once, in order |
| Pagination.PageFill | assets/js/preg-lactation.js:68-75 | pages 1 to the page count are non-empty, all but the last are full, and pages past the count are empty |
| Pagination.ClampedPageIsEmptyOnlyWithoutRows | assets/js/preg-lactation.js:68-77 | after clamping, the "no drug found" branch is taken exactly when the table has no rows |
| Pagination.PageWindow | assets/js/preg-lactation.js:168-183 | all pages when there are at most five; otherwise five consecutive pages inside the range that contain the current page, centred on it away from the ends |
| Pagination.PaginationControls | assets/js/preg-lactation.js:153-207 | the pager is hidden exactly for at most one page with a numeric size; previous/next are disabled exactly at the ends; an ellipsis is only shown next to a first or last link |
| Pagination.StripShape | assets/js/preg-lactation.js:185-201 | the link strip is strictly increasing and consists of page 1, the window and the last page |
| Pagination.StripListsEveryPage | assets/js/preg-lactation.js:168-201 | for a page in range, a page-1 link appears exactly when the window starts after page 1 and an ellipsis exactly when it starts after page 2, and likewise at the end; the strip is increasing and in range, lists the first, last and current page, and every unlisted page lies behind an ellipsis that hides at least one page |
| Pagination.EntryRange | assets/js/preg-lactation.js:221-237 | "no data" exactly for an empty table, "all n" exactly for `'all'`, otherwise a range whose last entry is cut at the row count |
| Pagination.EntryRangeDescribesPage | assets/js/preg-lactation.js:221-237 | for a page in range with n rows per page, the line shows first = (page−1)·n + 1 and last = min(page·n, total), the same bounds the page is cut at, so it names the page's rows; "all n" goes with the whole table |
| Selection.AddName | assets/js/preg-lactation.js:267-269 | the name is present afterwards, nothing else is added, the old order is kept as a prefix, the length grows only for a new name, and no duplicate appears |
| Selection.RemoveName | assets/js/preg-lactation.js:300 | exactly the occurrences of the name are removed, nothing is added, and no duplicate appears |
| Selection.AddThenRemove | assets/js/preg-lactation.js:267-300 | adding a new tag and removing it restores the list exactly |
| Selection.RemoveThenAdd | assets/js/preg-lactation.js:267-300 | removing and re-adding a tag leaves the same set of tags |
| Selection.FindDrug | assets/js/preg-lactation.js:261-264 | the first drug whose name or one of whose keywords is the term, and none exactly when no drug matches |
| Selection.SelectDrug | assets/js/preg-lactation.js:257-273 | an empty or unmatched term changes nothing; a match adds the drug's name; only names of known drugs are added and no duplicate appears |
| Selection.ClickMedication | assets/js/preg-lactation.js:665-670 | clicking a medication adds its name exactly when it is not yet selected (the length grows by one then, and not otherwise), keeps the selection's order and creates no duplicate |
| Selection.SelectDisease | assets/js/preg-lactation.js:607-613 | an empty name is ignored; otherwise the name is added once |
| Selection.RemoveDisease | assets/js/preg-lactation.js:634-641 | an empty name is ignored; otherwise exactly that name is removed |
| Selection.FilterDrugs | assets/js/preg-lactation.js:64-66 | with no selection every drug is shown; otherwise exactly the drugs whose names are selected |
| Selection.KeepNamedAppend | assets/js/preg-lactation.js:65 | the name filter keeps the table's order (it distributes over concatenation) |
| Selection.FilterDrugsAppend | assets/js/preg-lactation.js:64-66 | the drug filter, with or without a selection, keeps the table's order and multiplicity |
| Selection.SelectingMoreShowsMore | assets/js/preg-lactation.js:64-66 | with a non-empty selection, selecting another drug never hides a row |
| Selection.Lower | assets/js/preg-lactation.js:497 | lower-casing keeps the length and maps each ASCII capital to its small letter, leaving other characters alone |
| Selection.FilterGuidelines | assets/js/preg-lactation.js:493-498 | with no disease selected every row is shown; otherwise a row is shown exactly when its disease contains a selected name, ignoring case |
| Selection.FilterGuidelinesAppend | assets/js/preg-lactation.js:494-498 | the guideline filter decides row by row (it distributes over concatenation), so the rows kept stay in table order and keep their multiplicity |
| Selection.SelectedDiseaseRowsShown | assets/js/preg-lactation.js:493-498 | the rows of a disease picked from the box are always shown |
| References.Cite | assets/js/preg-lactation.js:94-105 | a known reference text reuses its number; a new one is appended and gets the next number; the list only grows, never repeats, and marks each citation with its entry |
| References.NumberFrom | assets/js/preg-lactation.js:88-107 | numbering the rows in order gives each row one number per citation, each pointing to that text's entry in a duplicate-free list of exactly the cited texts |
| References.NumberReferences | assets/js/preg-lactation.js:85-107 | the page's reference list has no duplicates and holds exactly the cited texts; every citation's number is the 1-based position of its text; no row cites anything exactly when the list is empty |
| References.ListedAppend | assets/js/preg-lactation.js:95-104 | citing two runs of texts one after the other lists the same references as citing them in one go |
| References.NumberFromIsCiteFlat | assets/js/preg-lactation.js:88-105 | the list built row by row equals the list built from all citations read top to bottom, left to right |
| References.ListedInFirstOrder | assets/js/preg-lactation.js:95-101 | the list of one run of citations holds texts that occur in it, in the order of their first occurrence |
| References.ReferencesInFirstCitationOrder | assets/js/preg-lactation.js:85-107 | the references under the table appear in the order the page first cites them |
| Tables.Footnotes | assets/js/preg-lactation.js:85-107 | one mark list per row with one number per citation, each pointing to that citation's text in a duplicate-free reference list of exactly the page's cited texts |
| Tables.RenderDrugTable | assets/js/preg-lactation.js:61-107 | the shown page is the requested page clamped to the page count, and its rows are that page of the filtered drugs; for a request ≥ 1 the page is empty exactly when the filter leaves no drug; the empty case shows no data, no references and the zero-page pager; otherwise the entry line and the pager are those of the clamped page, and the footnotes number the page's citations |
| Tables.RenderGuidelineTable | assets/js/preg-lactation.js:416-426 | the shown page is the requested page clamped to the page count, its rows are that page of the filtered rows, and the entry line and pager are those of that page; for a request ≥ 1 the page is empty exactly when no row mentions a selected disease |
| BodyWeight.IdealBodyWeight | assets/js/bwandcrclcalculator.js:74-85 | 50 kg (male) or 45.5 kg (female) up to five feet, plus 2.3 kg per inch above five feet; never below the base |
| BodyWeight.IdealWeightMonotone | assets/js/bwandcrclcalculator.js:74-81 | a taller patient never has a lower ideal weight |
| BodyWeight.IdealWeightSexGap | assets/js/bwandcrclcalculator.js:77-81 | at every height the male ideal weight is 4.5 kg above the female one |
| BodyWeight.CompareWithIdeal | assets/js/bwandcrclcalculator.js:89-105 | in exact arithmetic, the percentage is (actual − IBW) / IBW × 100; above exactly over +10%, below exactly under −10% (doubles may differ at the cut-off, see Left out) |
| BodyWeight.ComparisonInWeights | assets/js/bwandcrclcalculator.js:89-105 | above exactly when the weight exceeds 110% of the ideal weight, below exactly under 90%, near exactly in between (inclusive) |
| BodyWeight.AdjustedBodyWeight | assets/js/bwandcrclcalculator.js:117-122 | the adjusted weight lies between the ideal and the actual weight and moves 40% of the way from the ideal weight to the actual weight |
| BodyWeight.Categorise | assets/js/bwandcrclcalculator.js:130-134 | each category holds exactly for its BMI interval: < 18.5, ≤ 22.9, ≤ 24.9, ≤ 29.9, above |
| BodyWeight.CategoriseMonotone | assets/js/bwandcrclcalculator.js:130-134 | a higher BMI never falls in a lower category |
| BodyWeight.BodyMassIndex | assets/js/bwandcrclcalculator.js:126-128 | in exact arithmetic, the BMI is positive and times the squared height in metres gives back the weight (doubles may differ, see Left out) |
| BodyWeight.CalculatePanel | assets/js/bwandcrclcalculator.js:41-138 | blank everywhere unless a sex with a height or a weight is entered; otherwise each line shows a value exactly when its own inputs are usable and "insufficient data" when not; the values are the ideal weight, the comparison with it, the adjusted weight and the BMI with its category, as computed by the functions above |
| CreatinineClearance.ScrInMgDl | assets/js/bwandcrclcalculator.js:209-212 | mg/dL is taken as is; µmol/L is divided by 88.4 |
| CreatinineClearance.CockcroftGault | assets/js/bwandcrclcalculator.js:213-218 | CrCl × 72 × SCr equals (140 − age) × weight, times 0.85 for a woman |
| CreatinineClearance.FemaleIsEightyFivePercent | assets/js/bwandcrclcalculator.js:214-218 | the female estimate is 85% of the male one for the same data |
| CreatinineClearance.PositiveBelowAgeLimit | assets/js/bwandcrclcalculator.js:214-218 | with positive weight and creatinine, the estimate is positive exactly below age 140 |
| CreatinineClearance.DecreasesWithAge | assets/js/bwandcrclcalculator.js:214-218 | an older patient never has a higher estimate |
| CreatinineClearance.DecreasesWithCreatinine | assets/js/bwandcrclcalculator.js:214-218 | a higher creatinine never raises the estimate for a patient under 140 |
| CreatinineClearance.UnitsAgree | assets/js/bwandcrclcalculator.js:209-218 | the same number typed in µmol/L instead of mg/dL gives 88.4 times the estimate |
| CreatinineClearance.CalculateCrCl | assets/js/bwandcrclcalculator.js:200-222 | blank exactly when every box and the sex are empty; an estimate exactly when the sex is chosen and age, weight and creatinine are positive numbers, equal to Cockcroft–Gault in mg/dL and positive exactly below age 140; "insufficient data" otherwise |

## Left out

- DOM rendering, event wiring, `fetch` of the JSON data, `localStorage`, Select2 widgets and `setTimeout` scrolling: these are I/O. The model starts from the parsed inputs and the data rows.
- Column sorting (`sortData`, `sortTreatmentData`, the disease option list): these use `localeCompare` on Thai and Latin text, which has no Dafny counterpart.
- `formatMedications`: regular-expression linking of drug names inside free text.
- `renderRegimen`, with its display sort of tablets and its image rows: presentation only.
- Body surface area: it needs a square root of a real number.
- Dates, the titration helper and the target-dose dropdown of the warfarin page; the pediatric dosage calculator: outside the modelled core.
- `toFixed` display rounding of every result, and the whole-percent rounding of the IBW comparison: presentation of numbers the model keeps exact.
- The `ref-<n>` anchor string and its `split('-')` read-back: the model keeps the number itself.
- jQuery's `.data('diseaseName')` type coercion on the remove button: the model assumes it returns the tag's name unchanged.
- Decomposer.Decompose: works on exact quarter-milligram integers. The source uses floating point with a 0.001 tolerance and `toFixed(2)` after each subtraction. On the quarter grid both give the same comparisons, so the tolerance itself is not modelled.
- Supply.PeriodSummary: computes `ceil(count × days / 7)` exactly. The source multiplies by the float `days / 7`, which can round up once more when the product lands just above a whole number (7 × (29 / 7) evaluates slightly above 29).
- BodyWeight.CompareWithIdeal: computes the percentage in exact arithmetic. The source uses binary64 doubles, so at the ±10% cut-off the two can disagree: for a man of 154.94 cm and 57.53 kg the exact percentage is 10 (near), but the doubles give 10.000000000000007, which the source shows as above.
- BodyWeight.BodyMassIndex: computes the BMI in exact arithmetic, and `Categorise` compares that exact value. The source's doubles can land on the other side of a cut-off: at 140 cm and 44.884 kg the exact BMI is 22.9 (normal), but `1.4 * 1.4` rounds to 1.9599999999999997 and the source's BMI of 22.900000000000002 is shown as overweight.
- Selection.Lower: lower-cases ASCII letters only. `toLowerCase` also folds other scripts, which do not occur in disease names typed in Thai or English.
- Pagination.ClampPage: like the source, it never raises a page below 1, so a negative or zero request yields negative `slice` indices. The model states the `slice` semantics but proves the table properties only for requests ≥ 1, which are the only pages the links send.
- CreatinineClearance.CalculateCrCl: like the source, it has no upper age limit, so from age 140 on the estimate is zero or negative. The contract states this rather than excluding it.
- Tables.RenderGuidelineTable: pages the filtered rows in table order. `filterTreatmentTable` (preg-lactation.js:493-501) re-sorts them by the current column (`sortTreatmentData`) before paging, and that sort is not modelled (see column sorting above).
- Pagination.StripListsEveryPage: says which pages the strip lists, not which links work. The links to page 1 and to the last page (preg-lactation.js:186, 200) sit in list items without the `page-item` class, so the click handler's `closest('.page-item')` (line 213) finds no element for them; event wiring is not modelled.
- Global mutable state (`currentPage`, `selectedDrugs`, `calculatedRegimen`): every operation takes the state it reads and returns the state it writes.
