/**
  The allocation summary: counts, totals, coverage, award statistics, per-tier equity shares and
  the report records, computed from the applicant array after allocation and from the funded list.
 */
module Summary {
  import opened Applicants
  import opened Arith
  import opened Allocation
  import opened Stats
  import opened Tally

  /** One funded (or unfunded) applicant as reported. */
  datatype AwardRecord = AwardRecord(
    applicantId: string,
    name: string,
    needLevel: string,
    score: real,
    requested: real,
    awarded: real,
    priority: real)

  /** One ineligible applicant as reported, with the recorded reasons. */
  datatype IneligibleRecord = IneligibleRecord(
    applicantId: string,
    name: string,
    needLevel: string,
    score: real,
    requested: real,
    reason: string)

  function AwardRecordOf(x: Applicant): AwardRecord {
    AwardRecord(x.id, x.name, x.needLevel, x.scoreRaw, x.requested, x.awarded, x.priority)
  }

  function IneligibleRecordOf(x: Applicant): IneligibleRecord {
    IneligibleRecord(x.id, x.name, x.needLevel, x.scoreRaw, x.requested, x.eligibilityMsg)
  }

  /** Reported as unfunded: eligible and without a positive award. */
  predicate IsOwed(x: Applicant) { x.eligible && !(x.awarded > 0.0) }

  /** The records of the funded list, in list order. */
  function ListedRecords(s: seq<Applicant>, idxs: seq<nat>): seq<AwardRecord>
    requires InRange(idxs, |s|)
  {
    seq(|idxs|, k requires 0 <= k < |idxs| => AwardRecordOf(s[idxs[k]]))
  }

  function AwardRecordsOf(u: seq<Applicant>): seq<AwardRecord> {
    seq(|u|, k requires 0 <= k < |u| => AwardRecordOf(u[k]))
  }

  function IneligibleRecordsOf(u: seq<Applicant>): seq<IneligibleRecord> {
    seq(|u|, k requires 0 <= k < |u| => IneligibleRecordOf(u[k]))
  }

  /** One record per funded applicant, in the order of the funded list. */
  method BuildAwardRecords(a: array<Applicant>, awarded: seq<nat>) returns (records: seq<AwardRecord>)
    requires InRange(awarded, a.Length)
    ensures records == ListedRecords(a[..], awarded)
  {
    records := [];
    for k := 0 to |awarded|
      invariant |records| == k
      invariant forall j :: 0 <= j < k ==> records[j] == AwardRecordOf(a[awarded[j]])
    {
      records := records + [AwardRecordOf(a[awarded[k]])];
    }
  }

  lemma OwedSnoc(s: seq<Applicant>, x: Applicant, records: seq<AwardRecord>)
    requires records == AwardRecordsOf(Filter(s, IsOwed))
    ensures AwardRecordsOf(Filter(s + [x], IsOwed)) == if IsOwed(x) then records + [AwardRecordOf(x)] else records
  {
    FilterSnoc(s, x, IsOwed);
  }

  lemma IneligibleSnoc(s: seq<Applicant>, x: Applicant, records: seq<IneligibleRecord>)
    requires records == IneligibleRecordsOf(Filter(s, IsIneligible))
    ensures IneligibleRecordsOf(Filter(s + [x], IsIneligible)) == if x.eligible then records else records + [IneligibleRecordOf(x)]
  {
    FilterSnoc(s, x, IsIneligible);
  }

  /** One record per eligible applicant without a positive award, in array order. */
  method BuildUnfundedRecords(a: array<Applicant>) returns (records: seq<AwardRecord>)
    ensures records == AwardRecordsOf(Filter(a[..], IsOwed))
  {
    records := [];
    for i := 0 to a.Length
      invariant records == AwardRecordsOf(Filter(a[..i], IsOwed))
    {
      assert a[..i + 1] == a[..i] + [a[i]];
      OwedSnoc(a[..i], a[i], records);
      if !a[i].eligible || a[i].awarded > 0.0 {
        continue;
      }
      records := records + [AwardRecordOf(a[i])];
    }
    assert a[..a.Length] == a[..];
  }

  /** One record per ineligible applicant, in array order. */
  method BuildIneligibleRecords(a: array<Applicant>) returns (records: seq<IneligibleRecord>)
    ensures records == IneligibleRecordsOf(Filter(a[..], IsIneligible))
  {
    records := [];
    for i := 0 to a.Length
      invariant records == IneligibleRecordsOf(Filter(a[..i], IsIneligible))
    {
      assert a[..i + 1] == a[..i] + [a[i]];
      IneligibleSnoc(a[..i], a[i], records);
      if a[i].eligible {
        continue;
      }
      records := records + [IneligibleRecordOf(a[i])];
    }
    assert a[..a.Length] == a[..];
  }

  // ---------------------------------------------------------------------------------------------
  // Finishing the per-tier coverage table.

  /** The tier's coverage rate, set only when the tier requested something. */
  function WithCoverageRate(c: NeedCoverage): NeedCoverage {
    if c.requestedTotal > 0.0 then c.(coverageRate := c.awardedTotal / c.requestedTotal) else c
  }

  /**
    The tier's share of all eligible requests and of all money spent, each set only when its
    denominator is positive, and the difference of the two.
   */
  function WithShares(c: NeedCoverage, eligibleRequested: real, budgetUsed: real): NeedCoverage {
    var requestedShare := if eligibleRequested > 0.0 then c.requestedTotal / eligibleRequested else c.requestedShare;
    var awardedShare := if budgetUsed > 0.0 then c.awardedTotal / budgetUsed else c.awardedShare;
    c.(requestedShare := requestedShare, awardedShare := awardedShare, shareDelta := awardedShare - requestedShare)
  }

  /** Sets every tier's coverage rate, visiting the tiers in whatever order the map yields them. */
  method SetCoverageRates(coverage: map<string, NeedCoverage>) returns (r: map<string, NeedCoverage>)
    ensures r.Keys == coverage.Keys
    ensures forall k :: k in coverage ==> r[k] == WithCoverageRate(coverage[k])
  {
    r := coverage;
    var todo := coverage.Keys;
    while todo != {}
      invariant todo <= coverage.Keys && r.Keys == coverage.Keys
      invariant forall k :: k in coverage ==> r[k] == if k in todo then coverage[k] else WithCoverageRate(coverage[k])
      decreases todo
    {
      var level :| level in todo;
      var c := r[level];
      if c.requestedTotal > 0.0 {
        c := c.(coverageRate := c.awardedTotal / c.requestedTotal);
      }
      r := r[level := c];
      todo := todo - {level};
    }
  }

  /** Sets every tier's two shares and their difference, in whatever order the map yields the tiers. */
  method SetCoverageShares(coverage: map<string, NeedCoverage>, eligibleRequested: real, budgetUsed: real)
    returns (r: map<string, NeedCoverage>)
    ensures r.Keys == coverage.Keys
    ensures forall k :: k in coverage ==> r[k] == WithShares(coverage[k], eligibleRequested, budgetUsed)
  {
    r := coverage;
    var todo := coverage.Keys;
    while todo != {}
      invariant todo <= coverage.Keys && r.Keys == coverage.Keys
      invariant forall k :: k in coverage ==>
        r[k] == if k in todo then coverage[k] else WithShares(coverage[k], eligibleRequested, budgetUsed)
      decreases todo
    {
      var level :| level in todo;
      var c := r[level];
      if eligibleRequested > 0.0 {
        c := c.(requestedShare := c.requestedTotal / eligibleRequested);
      }
      if budgetUsed > 0.0 {
        c := c.(awardedShare := c.awardedTotal / budgetUsed);
      }
      c := c.(shareDelta := c.awardedShare - c.requestedShare);
      r := r[level := c];
      todo := todo - {level};
    }
  }

  /** The finished coverage table: the rate first, then the shares, for every tier in the table. */
  function FinalCoverage(coverage: map<string, NeedCoverage>, eligibleRequested: real, budgetUsed: real): map<string, NeedCoverage> {
    map k | k in coverage :: WithShares(WithCoverageRate(coverage[k]), eligibleRequested, budgetUsed)
  }

  // ---------------------------------------------------------------------------------------------
  // The summary.

  /** The summary of one allocation run (the generation timestamp and the scenario results are not part of it). */
  datatype AllocationSummary = AllocationSummary(
    budget: real,
    budgetUsed: real,
    budgetLeft: real,
    budgetRequiredFull: real,
    budgetShortfall: real,
    applicants: nat,
    eligibleCount: nat,
    awardedCount: nat,
    ineligibleCount: nat,
    eligibleUnfundedCount: nat,
    eligibleUnfundedAmount: real,
    eligibleRequestedTotal: real,
    fullyFundedCount: nat,
    partiallyFundedCount: nat,
    fundingGapTotal: real,
    coverageRate: real,
    fullFundingRate: real,
    averageAward: real,
    awardP25: real,
    awardP50: real,
    awardP75: real,
    awardToRequestAvg: real,
    minAwarded: real,
    maxAwarded: real,
    lastFundedPriority: real,
    lastFundedScore: real,
    lastFundedNeed: string,
    lastFundedRequested: real,
    byNeed: map<string, NeedAgg>,
    needCoverage: map<string, NeedCoverage>,
    unfundedByNeed: map<string, NeedUnfunded>,
    ineligibleReasons: map<string, nat>,
    awards: seq<AwardRecord>,
    unfunded: seq<AwardRecord>,
    ineligible: seq<IneligibleRecord>)

  /** `x`, or 0 when `x` is negative. */
  function AtLeastZero(x: real): real {
    if x < 0.0 then 0.0 else x
  }

  /** The applicant the funded list ends with, or a blank applicant when nothing was funded. */
  function LastFunded(s: seq<Applicant>, idxs: seq<nat>): Applicant
    requires InRange(idxs, |s|)
  {
    if idxs != [] then s[idxs[|idxs| - 1]] else Applicant("", "", "", 0.0, 0.0, 0.0, 0.0, 0.0, false, "")
  }

  /**
    The summary of the array `s` after allocation, for `budget` and the funded list `idxs`: the two
    tallies, the finished coverage table, the report records and the figures derived from them.
   */
  function SummaryOf(s: seq<Applicant>, budget: real, idxs: seq<nat>): AllocationSummary
    requires InRange(idxs, |s|)
  {
    var t := ApplicantsTally(s);
    var w := AwardsTally(s, idxs, |idxs|);
    Assemble(budget, |s|, |idxs|, t, w, FinalCoverage(t.coverage, t.eligibleRequested, w.budgetUsed),
      LastFunded(s, idxs), ListedRecords(s, idxs), AwardRecordsOf(Filter(s, IsOwed)),
      IneligibleRecordsOf(Filter(s, IsIneligible)))
  }

  /** The summary put together from the tallies, the finished coverage table and the records. */
  function Assemble(budget: real, applicants: nat, n: nat, t: ApplicantTally, w: AwardTally,
                    coverage: map<string, NeedCoverage>, last: Applicant, awards: seq<AwardRecord>,
                    unfunded: seq<AwardRecord>, ineligible: seq<IneligibleRecord>): AllocationSummary
  {
    AllocationSummary(
      budget := budget,
      budgetUsed := w.budgetUsed,
      budgetLeft := budget - w.budgetUsed,
      budgetRequiredFull := t.eligibleRequested,
      budgetShortfall := AtLeastZero(t.eligibleRequested - budget),
      applicants := applicants,
      eligibleCount := t.eligibleCount,
      awardedCount := n,
      ineligibleCount := t.ineligibleCount,
      eligibleUnfundedCount := t.unfundedCount,
      eligibleUnfundedAmount := t.unfundedAmount,
      eligibleRequestedTotal := t.eligibleRequested,
      fullyFundedCount := t.fullyFunded,
      partiallyFundedCount := t.partiallyFunded,
      fundingGapTotal := AtLeastZero(t.eligibleRequested - w.budgetUsed),
      coverageRate := if t.eligibleRequested > 0.0 then w.budgetUsed / t.eligibleRequested else 0.0,
      fullFundingRate := if t.eligibleCount > 0 then t.fullyFunded as real / t.eligibleCount as real else 0.0,
      averageAward := if n > 0 then w.budgetUsed / n as real else 0.0,
      awardP25 := Percentile(w.amounts, 0.25),
      awardP50 := Percentile(w.amounts, 0.50),
      awardP75 := Percentile(w.amounts, 0.75),
      awardToRequestAvg := AverageFloat(w.rates),
      minAwarded := w.minAward,
      maxAwarded := w.maxAward,
      lastFundedPriority := last.priority,
      lastFundedScore := last.scoreRaw,
      lastFundedNeed := last.needLevel,
      lastFundedRequested := last.requested,
      byNeed := w.byNeed,
      needCoverage := coverage,
      unfundedByNeed := t.unfundedByNeed,
      ineligibleReasons := t.reasons,
      awards := awards,
      unfunded := unfunded,
      ineligible := ineligible)
  }

  /** Setting the rates and then the shares of every tier gives the finished coverage table. */
  lemma FinishedTable(c: map<string, NeedCoverage>, rated: map<string, NeedCoverage>, r: map<string, NeedCoverage>,
                      eligibleRequested: real, budgetUsed: real)
    requires rated.Keys == c.Keys && forall k :: k in c ==> rated[k] == WithCoverageRate(c[k])
    requires r.Keys == rated.Keys && forall k :: k in rated ==> r[k] == WithShares(rated[k], eligibleRequested, budgetUsed)
    ensures r == FinalCoverage(c, eligibleRequested, budgetUsed)
  {
  }

  /**
    Builds the summary: the applicant loop, the funded-list loop, the two passes over the tiers and
    the report records; the derived figures are then straight-line arithmetic on their results.
   */
  method Summarize(a: array<Applicant>, budget: real, awarded: seq<nat>) returns (r: AllocationSummary)
    requires InRange(awarded, a.Length)
    ensures r == SummaryOf(a[..], budget, awarded)
  {
    var last := Applicant("", "", "", 0.0, 0.0, 0.0, 0.0, 0.0, false, "");
    if |awarded| > 0 {
      last := a[awarded[|awarded| - 1]];
    }
    var t := TallyApplicants(a);
    var w := TallyAwards(a, awarded);
    var rated := SetCoverageRates(t.coverage);
    var coverage := SetCoverageShares(rated, t.eligibleRequested, w.budgetUsed);
    FinishedTable(t.coverage, rated, coverage, t.eligibleRequested, w.budgetUsed);
    var awards := BuildAwardRecords(a, awarded);
    var unfunded := BuildUnfundedRecords(a);
    var ineligible := BuildIneligibleRecords(a);
    r := Assemble(budget, a.Length, |awarded|, t, w, coverage, last, awards, unfunded, ineligible);
  }
}
