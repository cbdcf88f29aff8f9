# Award allocator — a verified model of the allocation engine

This project models the allocation engine of a scholarship/award allocator. The allocator reads
applicant records and works through them in a fixed order:

- it marks ineligible records;
- it normalises the raw scores;
- it blends each normalised score with the applicant's need tier into a priority;
- it ranks the applicants (priority, then raw score, both descending, with a stable sort);
- it funds them in up to three reserve passes (high, medium, low), each spending a share of the
  budget within its tier, and then in one residual pass over every tier;
- it summarises the result: counts, totals, rates, per-tier coverage and equity shares,
  percentiles of the awards, and report records.

What-if budgets re-run the allocator on fresh copies of the applicants whose awards are cleared.
Two small validators complete the core: the database schema-name check and the ordering of the
ineligibility reasons.

Structure of the model:

- Amounts are `real`.
- An applicant is a datatype value. The Go slice of applicant pointers is an `array<Applicant>`
  that the imperative steps update in place.
- The funded lists the allocator returns are sequences of array positions. Each position stands
  for a pointer, so the summary reads the live award through it, as the source does.
- The loops that update the applicant array or build a list, map or record set are methods with
  loop invariants: those of applyMinScore, normalizeScores, assignPriority, allocateBudget,
  allocatePass, summarize, totalAwarded, cloneApplicants, summarizeScenario, buildScenarioResults,
  the three record builders and sortReasonSummary. Each method is proved equal to a specification
  function, or to a pointwise description of the new array, or (for Validators.CollectReasons and
  Validators.SortReasonSummary) to the relational predicates ListsReasons and ReasonsOrdered, which
  Validators.ReasonSummaryUnique shows determine the result.
- The read-only loops of averageFloat, minFloat, maxFloat and sanitizeIdentifier are recursive
  functions instead (Stats.Sum, Stats.MinOf, Stats.MaxOf and Validators.AcceptedFrom). The copy
  and `sort.Float64s` inside percentile are the function Stats.SortAscending.
- The properties are proved about those functions.

Modules:

| file | module | content |
|---|---|---|
| `arith.dfy` | `Arith` | lemmas about products and quotients of reals |
| `applicants.dfy` | `Applicants` | the record, the need tiers, `markIneligible` and the record checks |
| `scoring.dfy` | `Scoring` | `applyMinScore`, `normalizeScores`, `needScore` and `assignPriority` |
| `ranking.dfy` | `Ranking` | `sortApplicants`, a stable in-place insertion sort |
| `award.dfy` | `Award` | `computeAward`, `clamp` and `roundToIncrement` |
| `allocation.dfy` | `Allocation` | `allocatePass`, `allocateBudget` and `totalAwarded` |
| `stats.dfy` | `Stats` | `percentile`, `averageFloat`, `minFloat` and `maxFloat` |
| `tally.dfy` | `Tally` | the two loops of `summarize`, with reference definitions by filtering |
| `summary.dfy` | `Summary` | the summary record, the report records, the tier passes and `summarize` |
| `summary_props.dfy` | `SummaryProps` | what the summary promises |
| `scenario.dfy` | `Scenario` | `cloneApplicants`, `summarizeScenario` and `buildScenarioResults` |
| `validators.dfy` | `Validators` | `sanitizeIdentifier` and `sortReasonSummary` |
| `pipeline.dfy` | `Pipeline` | the configuration checks and the run in its fixed order |

## Model

| member | source | states |
|---|---|---|
| Applicants.NeedScore | main.go:457-468 | the tier base value is 1 exactly for "high", 0.5 exactly for "medium" and 0 for anything else, after lower-casing; always in [0, 1] |
| Applicants.NeedScoreOrdered | main.go:457-468 | high > medium > low = 0 |
| Applicants.ToLower | main.go:458 | lower-casing keeps the length and maps each character by ASCII lower-casing |
| Applicants.MarkIneligible | main.go:415-422 | the flag is cleared, only flag and reason change, the new reason ends the message, and an earlier reason is kept before "; " |
| Applicants.MarkIneligibleJoins | main.go:405-422 | marking with several reasons gives exactly the reasons joined by "; ", ineligible as soon as one is given |
| Applicants.JoinReasonsSnoc | main.go:421 | appending a reason appends "; " and the reason |
| Applicants.StructuralProblems | main.go:405-410 | no problem exactly when the request is positive and the tier is low, medium or high |
| Applicants.NewApplicant | main.go:397-410 | a built record is eligible iff its request is positive and its tier valid, carries every failed check's message, and starts unscored and unfunded |
| Scoring.ApplyMinScore | main.go:424-433 | a non-positive threshold changes nothing; otherwise exactly the applicants below it are marked ineligible with the reason; the new array is Scoring.MinScored of the old |
| Scoring.MaxRawScore | main.go:436-441 | the running maximum starts at 0, bounds every raw score and is 0 or some applicant's score |
| Scoring.ScoreDenominator | main.go:436-444 | the divisor is positive, bounds every raw score, and is 1 or the largest raw score |
| Scoring.NormalizeScores | main.go:435-448 | every normalised score becomes raw over the denominator of the whole array; nothing else changes; the new array is Scoring.Normalized of the old |
| Scoring.NormalizedScoreBounds | main.go:445-447 | a non-negative raw score normalises into [0, 1] |
| Scoring.TopScoreNormalizesToOne | main.go:435-448 | when some raw score is positive, some applicant normalises to exactly 1 |
| Scoring.PriorityIsWeightedAverage | main.go:450-455 | with non-negative weights of positive sum, the priority lies between the normalised score and the tier value, hence in [0, 1] |
| Scoring.WeightedAverageBounds | main.go:453 | a weighted average lies between the values it averages |
| Scoring.AssignPriority | main.go:450-455 | every priority becomes the weighted blend; nothing else changes; the new array is Scoring.Prioritized of the old |
| Ranking.Insert | main.go:470-477 | insertion adds one element, as a multiset |
| Ranking.RankOrderRanked | main.go:470-477 | the rank order is sorted: priority descending, then raw score descending |
| Ranking.RankOrderPermutation | main.go:470-477 | the rank order is a permutation of the input |
| Ranking.RankOrderStable | main.go:470-477 | applicants equal on both keys keep their input order |
| Ranking.RankOrderUnique | main.go:470-477 | any sorted arrangement that keeps ties in input order is the rank order, so any stable sort gives it |
| Ranking.InsertRanked | main.go:470-477 | inserting into a ranked sequence keeps it ranked |
| Ranking.InsertAt | main.go:470-477 | insertion lands right after the last applicant it does not rank ahead of |
| Ranking.SortApplicants | main.go:470-477 | the array is put in rank order in place |
| Ranking.InsertLast | main.go:470-477 | one insertion step places `a[i]` into the ranked prefix and leaves the suffix alone |
| Award.Clamp | main.go:568-576 | the result lies in [lo, hi] when that is non-empty, equals the value inside it, and the lower bound wins when checked first |
| Award.Trunc | main.go:582 | the float-to-int conversion drops the fraction toward zero |
| Award.RoundToIncrement | main.go:578-584 | no increment leaves the value; otherwise a non-negative value goes to a multiple of the increment within half an increment |
| Award.CapAmount | main.go:546-553 | the cap is the smaller of the absolute and percent caps, never below 0 |
| Award.ComputeAward | main.go:545-566 | without rounding the award never exceeds the cap; with rounding it lies in [minAward, cap] when that is non-empty; never negative for a non-negative floor and request |
| Award.CappedAwardIsCap | main.go:554-560 | with a non-negative request and a percent cap in (0, 1] the pre-rounding award is the cap |
| Award.ComputeAwardWithoutRounding | main.go:545-566 | without rounding the award is the cap and never exceeds the request; a below-floor request is paid as is when the percent cap is 1 |
| Award.ComputeAwardWithRounding | main.go:561-564 | with rounding the award is the cap rounded half up and clamped into [minAward, cap] |
| Award.ComputeAwardCanExceedCap | main.go:561-564 | when the floor is above the cap plus half an increment, the award is the floor: above the cap, and above a below-floor request |
| Award.ComputeAwardExamples | main_test.go:5-19 | the three unit-test awards (500, 300, 1000) and a floor-over-cap case |
| Allocation.TotalAwarded | main.go:1062-1068 | the method returns the sum of the listed applicants' awards in the array |
| Allocation.SumAwardedConcat | main.go:503-504 | the sum over a concatenated list is the sum of the two sums |
| Allocation.AllocatePass | main.go:518-543 | the array and the funded list are those of the pass specification |
| Allocation.PassShape | main.go:518-543 | a pass lists positions in increasing array order, only eligible applicants its tier filter allows whose computed award is positive, and changes nothing but those applicants' awards |
| Allocation.PassBudget | main.go:519-540 | what is left is the budget minus what was awarded, never negative for a non-negative budget |
| Allocation.PassGrants | main.go:525-537 | every paid award is at most the computed award and positive when the budget or the floor is; a cut-down award is the last one listed, is at least the floor, and leaves nothing |
| Allocation.PassStops | main.go:529-540 | a qualifying applicant is left unfunded only after the pass stopped, and a pass stops only when nothing, or less than the floor, is left |
| Allocation.StoppedStays | main.go:531-539 | after a break no later iteration changes anything |
| Allocation.RunReserves | main.go:492-505 | the reserve loop gives the reserve phase's array, funded list and remainder |
| Allocation.ReserveStepSkips | main.go:493-499 | a reserve with a non-positive share or amount is skipped |
| Allocation.ReserveStepRuns | main.go:500-504 | a running reserve appends its pass's list and subtracts what it awarded |
| Allocation.AllocateBudget | main.go:479-516 | the array and the funded list are those of the allocation specification: reserves, then the residual pass |
| Allocation.PassFacts | main.go:518-543 | one pass with a non-negative budget: funded positions in order, qualifying, awards positive for a positive budget, and the remainder is the budget minus the sum |
| Allocation.AppendPass | main.go:501-512 | a later pass funds no applicant already funded, since their awards are positive; the ledger stays sound, the sums add up, and the pass spends at most its budget |
| Allocation.ReserveStepKeeps | main.go:492-505 | each reserve step keeps the ledger sound (distinct, eligible, in-tier) and spends at most its reserved amount |
| Allocation.ReservePhaseKeeps | main.go:492-509 | after the reserves the remainder is the budget minus what was awarded, at least the budget minus the reserved amounts |
| Allocation.AllocateFunded | main.go:479-516 | nobody is funded twice, only eligible applicants without an earlier award are funded, only funded applicants' awards change, ineligible applicants are untouched, and the reserve list is a prefix of the final list |
| Allocation.AllocateWithinBudget | main.go:479-516 | with reserve shares in [0, 1] summing to at most 1, the whole allocation never exceeds the budget |
| Allocation.ReservedWithinBudget | main.go:496 | the reserved amounts sum to at most the budget |
| Allocation.EmptyPassListsZeroAward | main.go:526-537 | with nothing left and a zero floor, a pass still lists the first qualifying applicant with award 0 |
| Allocation.AllocateExample | main_test.go:22-52 | the test's allocation: four awards totalling 1000, 500 of it to the high tier |
| Pipeline.ExampleIsPrepared | main_test.go:23-32 | normalising the test's four applicants, blending with weights 0.7 and 0.3 and ranking them gives exactly the ranked applicants the allocation example starts from |
| Allocation.ExampleHighPass | main_test.go:34 | the high reserve pays 300, then the 200 left |
| Allocation.ExampleResidualPass | main_test.go:34 | the residual 500 pays the low tier 300, then 200 |
| Allocation.ExampleReservePhase | main_test.go:34 | only the high reserve runs and spends 500 |
| Stats.SortAscendingSpec | main.go:1421-1422 | the sorted copy is sorted and holds the input's values |
| Stats.SortedUnique | main.go:1421-1422 | two sorted arrangements of the same values are equal |
| Stats.MinOf | main.go:1450-1461 | the minimum is an element and at most every element |
| Stats.MaxOf | main.go:1463-1474 | the maximum is an element and at least every element |
| Stats.AverageBetween | main.go:1439-1448 | the mean lies between the minimum and the maximum |
| Stats.AverageWithin | main.go:1439-1448 | the mean of values in [lo, hi] lies in [lo, hi] |
| Stats.Ceil | main.go:1429 | the ceiling is the least integer not below the value |
| Stats.NearestRank | main.go:1429-1435 | the clamped rank is a valid position |
| Stats.Percentile | main.go:1417-1437 | empty gives 0; otherwise the result is an element of the input |
| Stats.PercentileEnds | main.go:1421-1426 | for a non-empty list, a fraction of at most 0 gives the minimum and one of at least 1 gives the maximum |
| Stats.PercentileNearestRank | main.go:1427-1436 | for a non-empty list of n values and 0 < p < 1, at least p·n values are at or below the result and fewer than p·n are below it |
| Stats.PercentileIsRank | main.go:1427-1436 | for 0 < p < 1 the result is the sorted copy's value at the clamped rank ceil(p·n) - 1 |
| Stats.NearestRankExact | main.go:1429-1435 | for p in (0, 1) the clamps never apply and the rank k has k < p·n <= k + 1 |
| Stats.SortedEnds | main.go:1423-1428 | the minimum and maximum are the ends of the sorted copy |
| Stats.PercentileMonotone | main.go:1417-1437 | a higher fraction never gives a lower percentile |
| Stats.PercentileSingle | main.go:1417-1437 | a one-element list yields that element for every fraction |
| Tally.ApplicantsTallySpec | main.go:630-664 | the applicant loop counts each applicant once: each counter, total, reason count and tier entry equals the filtered reference, and the counts partition the applicants |
| Tally.TallyApplicants | main.go:630-664 | the loop's accumulators are the fold of the applicant step |
| Tally.CountApplicant | main.go:631-663 | the loop body, with its early exits for an ineligible and for an unfunded applicant, performs exactly one step of that fold |
| Tally.AwardsTallySums | main.go:666-668 | the money spent is the sum of the listed awards, the amounts are those awards in order, and they sum to it |
| Tally.AwardsTallyExtremes | main.go:672-677 | the running minimum and maximum started at the first award are the minimum and maximum of the amounts |
| Tally.AwardsTallyRates | main.go:669-671 | at most one rate per funded applicant, each in [0, 1] when each award lies in [0, request] |
| Tally.AwardsTallyByNeed | main.go:679-682 | each tier's funded count and spending are those of the listed applicants of that tier; the table holds the three tiers and every listed tier |
| Tally.TallyAwards | main.go:666-683 | the funded-list loop's accumulators are the fold of the award step |
| Tally.CountAward | main.go:667-682 | the loop body for one funded applicant performs exactly one step of that fold |
| Tally.CoverageGrows | main.go:640-655 | an eligible applicant changes its own tier's coverage entry as the loop body does |
| Summary.BuildAwardRecords | main.go:875-889 | one record per funded applicant, in funded order |
| Summary.BuildUnfundedRecords | main.go:891-908 | one record per eligible applicant without a positive award, in array order |
| Summary.BuildIneligibleRecords | main.go:910-926 | one record per ineligible applicant, in array order |
| Summary.SetCoverageRates | main.go:685-690 | each tier's coverage rate is set when it requested something; the keys are kept |
| Summary.SetCoverageShares | main.go:692-701 | each tier's two shares and their difference are set; the keys are kept |
| Summary.Summarize | main.go:586-766 | the summary equals the specification built from the two loops, the finished tier table and the records |
| SummaryProps.SummaryCounts | main.go:630-664 | eligible + ineligible = applicants; unfunded + fully + partially = eligible; each count is a filter size; used = sum of the funded awards; left = budget − used |
| SummaryProps.SummaryRates | main.go:703-722 | gap = max(0, requested − used) and shortfall = max(0, requested − budget); coverage rate, full-funding rate and average award are the named quotients, or 0 with a zero denominator; full-funding rate in [0, 1] |
| SummaryProps.SummaryAwardStats | main.go:666-677 | nothing funded gives zeros; otherwise min <= p25 <= p50 <= p75 <= max, min <= average <= max, and min and max are funded awards; the award-to-request average lies in [0, 1] when every award lies in [0, request] |
| SummaryProps.SummaryAwardRecords | main.go:620-628 | the award records follow the funded list, and the last-funded fields are those of its final entry, or zero and empty |
| SummaryProps.SummaryIneligibleRecords | main.go:910-926 | one ineligible record per ineligible applicant, each taken from one |
| SummaryProps.SummaryUnfundedRecords | main.go:891-908 | each unfunded record is taken from an eligible applicant without a positive award; with no negative awards there are as many as unfunded applicants |
| SummaryProps.SummaryReasons | main.go:631-635 | a reason is a key iff it is non-empty and some ineligible applicant carries it, and its count is the number of such applicants |
| SummaryProps.FinishedEntry | main.go:685-701 | a finished tier entry keeps its counts and totals; its rate and shares are the named quotients, or 0; share delta = awarded share − requested share |
| SummaryProps.SummaryTierKeys | main.go:587-601 | each of the three tables holds low, medium and high, plus any other tier only when some applicant counted in that table names it |
| SummaryProps.SummaryTierTables | main.go:640-682 | each tier's funded entry and unfunded entry are the filtered counts and sums of that tier |
| SummaryProps.SummaryCoverageCounts | main.go:640-655 | each tier's coverage counts and totals are those of its eligible, awarded and unfunded applicants |
| SummaryProps.SummaryCoverageEntries | main.go:685-701 | each tier's rate and shares relate its totals to the summary's requested total and money spent |
| SummaryProps.TierSplit | main.go:640-655 | when every applicant has one of the three tiers, counts and totals split over them |
| SummaryProps.TallyTierSplit | main.go:630-664 | when every eligible applicant has a tier, the tables hold exactly the three tiers and their entries add up to the totals |
| SummaryProps.FinalCoverageSplit | main.go:692-701 | the finished requested shares of the three tiers add up to 1 when something was requested |
| SummaryProps.SummaryTierSplit | main.go:630-701 | with tiers on every eligible applicant, tier counts, requests and unfunded figures add up to the summary's, and the requested shares sum to 1 |
| SummaryProps.ListedTierSplit | main.go:666-683 | the funded list's count and spending split over the three tiers |
| SummaryProps.TallyByNeedSplit | main.go:666-683 | the funded-by-tier table's counts and spending add up to the list length and the money spent |
| SummaryProps.SummaryByNeedSplit | main.go:679-682 | with tiers on every funded applicant, the funded-by-tier table adds up to the awarded count and the money spent |
| SummaryProps.SummaryOfAllocation | main.go:209-218 | summarising an allocation under an accepted configuration: used <= budget, left >= 0, shortfall <= gap, and every funded applicant was eligible and unfunded |
| SummaryProps.SummaryExample | main_test.go:54-100 | the test's counts, gap 600, requirement 1800, shortfall 300, high shares 1000/1800 and 1000/1200 |
| Scenario.ClearedSpec | main.go:802-810 | each copy equals its original except that the award is 0 |
| Scenario.ClearedForgetsAwards | main.go:802-810 | lists differing only in awards clear to the same list |
| Scenario.ClearedUnawarded | main.go:802-810 | clearing a list with no awards gives it back |
| Scenario.CloneApplicants | main.go:802-810 | a fresh array holding the cleared copies |
| Scenario.ScenarioTallySpec | main.go:819-840 | the scenario loop's counts and requested total equal the summary loop's; its ratios are those of the funded eligible applicants with a positive request, in array order |
| Scenario.SummarizeScenario | main.go:812-873 | the result equals the scenario specification of the array, budget and funded list |
| Scenario.ScenarioMatchesSummary | main.go:812-873 | a scenario agrees with the summary of the same run on budget, used, left, requirement, counts, coverage rate, full-funding rate, gap and average award |
| Scenario.ScenarioAwardToRequest | main.go:836-871 | the award-to-request average is the mean ratio of the rated applicants, in [0, 1] when no award exceeds its request |
| Scenario.BuildScenarioResults | main.go:792-800 | one result per budget, in budget order, each the allocation of the cleared copies; the method modifies nothing, so the applicants are unchanged |
| Scenario.ScenarioRepeatsMainRun | main.go:792-800 | a scenario at the main budget, run on the main run's output, funds the same applicants and leaves the same array as the main run did, and its scenario figures are those of the main run |
| Validators.SanitizeIdentifier | main.go:1515-1527 | empty is refused; the result is Ok iff the lower-cased name is non-empty, of a-z and `_`, with digits only after the first character; Ok holds the lower-cased name, and Err names it |
| Validators.SanitizeIdempotent | main.go:1515-1527 | an accepted name is accepted unchanged, does not start with a digit, and holds only letters, digits and `_` |
| Validators.SanitizeIgnoresCase | main.go:1519 | a name and its lower-cased form get the same verdict |
| Validators.SanitizeAcceptsExample | main.go:1515-1527 | "Run_2" is accepted as "run_2" |
| Validators.SanitizeRefusesExamples | main.go:1515-1527 | a leading digit, a dot and the empty name are refused with their messages |
| Validators.StringLessTotal | main.go:1409 | distinct strings are ordered one way or the other |
| Validators.StringLessTransitive | main.go:1409 | the string order is transitive |
| Validators.OrderReasonsOrdered | main.go:1408-1413 | with distinct reasons, the ordered list runs by descending count, ties by ascending reason |
| Validators.CollectReasons | main.go:1404-1407 | one entry per map key with its count, whatever the iteration order |
| Validators.SortReasonSummary | main.go:1403-1415 | one entry per reason with its count, most frequent first, ties in ascending reason order |
| Validators.ReasonSummaryUnique | main.go:1403-1415 | any two lists meeting that description are equal, so the result does not depend on map order |
| Pipeline.CheckConfig | main.go:160-163 | a missing input or a non-positive budget is rejected with the first message, before any other check |
| Pipeline.CheckConfigAccepts | main.go:160-193 | a configuration is accepted iff every check passes |
| Pipeline.AcceptedConfig | main.go:160-193 | an accepted configuration meets what priority blending, the allocator and the award calculator need |
| Pipeline.RunAllocation | main.go:204-220 | the final array and the funded list are exactly what the allocator makes of the applicants after the minimum-score check, normalisation, priority blending and the stable ranking, in that order; the run funds distinct, eligible applicants, its summary is that of the final array, it spends at most the budget, and there is one scenario per extra budget |

## Left out

- Reading the CSV input and the flag parsing (main.go:134-158, 297-413). Only the record checks,
  over already-parsed fields, and the configuration checks are modelled.
- Console, CSV, JSON and Markdown output; formatting helpers; `exitWith`.
- The generation timestamp, which reads the clock, and database logging. Only the schema-name check
  of database logging is modelled.
- `parseBudgetList`, which needs a float parser: the what-if budgets are a parameter.
- Scenario.ScenarioRun: the scenario results are returned beside the summary, not stored in its
  `ScenarioResults` field.
- Scoring.ApplyMinScore: the reason text ("score below minimum (x.x)", formatted with one decimal)
  is a parameter. Number formatting is not modelled.
- Applicants.ToLower: lower-cases ASCII letters only. Go's `strings.ToLower` also maps non-ASCII
  letters. For the need tier this matters only for non-ASCII input. For the schema name, whether
  a name is accepted changes only for the few non-ASCII letters whose lower case is ASCII, such as
  the Kelvin sign. The refusal message carries the lower-cased name (main.go:1524), so for every
  name with a non-ASCII upper-case letter the modelled message keeps that letter where Go's would
  lower it.
- Amounts are exact reals. Binary floating-point rounding noise is not modelled.
  `int(x/increment + 0.5)` truncates toward zero (Award.Trunc), and `math.Ceil` is the real
  ceiling (Stats.Ceil).
- Map iteration order. The tier passes of `summarize` update each key independently. The reason
  list is collected by an arbitrary pick and then ordered, and that order is proved unique.
- Validators.SortReasonSummary: `sort.Slice` is not stable. Since reasons are distinct map keys,
  the comparator is a strict total order, so the result is the same for any sort.
- Summary.Summarize: its derived figures are one pure function of the loop results (`Assemble`),
  not a sequence of assignments. This makes no difference to the result.
- Scenario.ScenarioMatchesSummary: does not equate the award-to-request average with the summary's,
  because the two can differ. The summary takes a ratio for every applicant on the funded list with
  a positive request, including one listed with an award of 0 (main.go:666-671). The scenario skips
  eligible applicants whose award is 0 (main.go:825-828). A pass that runs out of money can list a
  zero award (Allocation.EmptyPassListsZeroAward); the summary then averages in a ratio of 0 that
  the scenario leaves out.
