/**
  What the allocation summary promises: its counts partition the applicants, its rates and
  shares are the quotients they are named after, its award statistics are ordered, its records
  agree with its counts, and its per-tier tables are the filtered views of the applicant array.
 */
module SummaryProps {
  import opened Applicants
  import opened Arith
  import opened Allocation
  import opened Stats
  import opened Tally
  import opened Summary

  /** The members of a filtered list are members of the list that satisfy the filter. */
  lemma {:induction false} FilterSound(s: seq<Applicant>, p: Applicant -> bool)
    ensures forall x :: x in Filter(s, p) ==> x in s && p(x)
    decreases |s|
  {
    if s != [] {
      FilterSound(s[..|s| - 1], p);
      forall x | x in s[..|s| - 1] ensures x in s {
        var j :| 0 <= j < |s| - 1 && s[..|s| - 1][j] == x;
        assert s[j] == x;
      }
    }
  }

  /** Where the `k`-th applicant kept by a filter sits in the unfiltered list. */
  lemma FilterOrigin(s: seq<Applicant>, p: Applicant -> bool, k: nat) returns (j: nat)
    requires k < |Filter(s, p)|
    ensures j < |s| && s[j] == Filter(s, p)[k] && p(s[j])
  {
    FilterSound(s, p);
    assert Filter(s, p)[k] in Filter(s, p);
    j :| 0 <= j < |s| && s[j] == Filter(s, p)[k];
  }

  /** Two filters that agree on every member of the list keep the same applicants. */
  lemma {:induction false} FilterSame(s: seq<Applicant>, p: Applicant -> bool, q: Applicant -> bool)
    requires forall j :: 0 <= j < |s| ==> p(s[j]) == q(s[j])
    ensures Filter(s, p) == Filter(s, q)
    decreases |s|
  {
    if s != [] {
      FilterSame(s[..|s| - 1], p, q);
    }
  }

  /**
    The counts: every applicant is eligible or ineligible, every eligible one is unfunded, fully
    funded or partially funded, each count is the size of its filter, the amount spent is what the
    listed applicants hold and the remainder is the budget minus that.
   */
  lemma SummaryCounts(s: seq<Applicant>, budget: real, idxs: seq<nat>)
    requires InRange(idxs, |s|)
    ensures var r := SummaryOf(s, budget, idxs);
      && r.applicants == |s| == r.eligibleCount + r.ineligibleCount
      && r.eligibleUnfundedCount + r.fullyFundedCount + r.partiallyFundedCount == r.eligibleCount
      && r.eligibleCount == |Filter(s, IsEligible)|
      && r.ineligibleCount == |Filter(s, IsIneligible)|
      && r.eligibleUnfundedCount == |Filter(s, IsUnfunded)|
      && r.fullyFundedCount == |Filter(s, IsFullyFunded)|
      && r.partiallyFundedCount == |Filter(s, IsPartiallyFunded)|
      && r.eligibleRequestedTotal == r.budgetRequiredFull == RequestedTotal(Filter(s, IsEligible))
      && r.eligibleUnfundedAmount == RequestedTotal(Filter(s, IsUnfunded))
      && r.awardedCount == |idxs|
      && r.budgetUsed == SumAwarded(s, idxs)
      && r.budgetLeft == budget - r.budgetUsed
  {
    ApplicantsTallySpec(s);
    AwardsTallySums(s, idxs, |idxs|);
    assert idxs[..|idxs|] == idxs;
  }

  /**
    The rates: the funding gap and the shortfall are the uncovered part of the eligible requests
    (against the money spent and against the budget), never negative; the coverage rate, the
    full-funding rate and the average award are the quotients they are named after, and 0 when
    their denominator is 0; the full-funding rate lies in [0, 1].
   */
  lemma SummaryRates(s: seq<Applicant>, budget: real, idxs: seq<nat>)
    requires InRange(idxs, |s|)
    ensures var r := SummaryOf(s, budget, idxs);
      && 0.0 <= r.fundingGapTotal && r.eligibleRequestedTotal - r.budgetUsed <= r.fundingGapTotal
      && (r.fundingGapTotal == 0.0 || r.fundingGapTotal == r.eligibleRequestedTotal - r.budgetUsed)
      && 0.0 <= r.budgetShortfall && r.eligibleRequestedTotal - r.budget <= r.budgetShortfall
      && (r.budgetShortfall == 0.0 || r.budgetShortfall == r.eligibleRequestedTotal - r.budget)
    ensures var r := SummaryOf(s, budget, idxs);
      && (r.eligibleRequestedTotal > 0.0 ==> Scales(r.coverageRate, r.eligibleRequestedTotal, r.budgetUsed))
      && (r.eligibleRequestedTotal <= 0.0 ==> r.coverageRate == 0.0)
    ensures var r := SummaryOf(s, budget, idxs);
      && 0.0 <= r.fullFundingRate <= 1.0
      && (r.eligibleCount > 0 ==> Scales(r.fullFundingRate, r.eligibleCount as real, r.fullyFundedCount as real))
      && (r.eligibleCount == 0 ==> r.fullFundingRate == 0.0)
    ensures var r := SummaryOf(s, budget, idxs);
      && (r.awardedCount > 0 ==> Scales(r.averageAward, r.awardedCount as real, r.budgetUsed))
      && (r.awardedCount == 0 ==> r.averageAward == 0.0)
  {
    var t := ApplicantsTally(s);
    var w := AwardsTally(s, idxs, |idxs|);
    ApplicantsTallySpec(s);
    AssembleRates(budget, |s|, |idxs|, t, w, FinalCoverage(t.coverage, t.eligibleRequested, w.budgetUsed),
      LastFunded(s, idxs), ListedRecords(s, idxs), AwardRecordsOf(Filter(s, IsOwed)),
      IneligibleRecordsOf(Filter(s, IsIneligible)));
  }

  lemma AssembleRates(budget: real, applicants: nat, n: nat, t: ApplicantTally, w: AwardTally,
                      coverage: map<string, NeedCoverage>, last: Applicant, awards: seq<AwardRecord>,
                      unfunded: seq<AwardRecord>, ineligible: seq<IneligibleRecord>)
    requires t.fullyFunded <= t.eligibleCount
    ensures var r := Assemble(budget, applicants, n, t, w, coverage, last, awards, unfunded, ineligible);
      && 0.0 <= r.fundingGapTotal && r.eligibleRequestedTotal - r.budgetUsed <= r.fundingGapTotal
      && (r.fundingGapTotal == 0.0 || r.fundingGapTotal == r.eligibleRequestedTotal - r.budgetUsed)
      && 0.0 <= r.budgetShortfall && r.eligibleRequestedTotal - r.budget <= r.budgetShortfall
      && (r.budgetShortfall == 0.0 || r.budgetShortfall == r.eligibleRequestedTotal - r.budget)
    ensures var r := Assemble(budget, applicants, n, t, w, coverage, last, awards, unfunded, ineligible);
      && (r.eligibleRequestedTotal > 0.0 ==> Scales(r.coverageRate, r.eligibleRequestedTotal, r.budgetUsed))
      && (r.eligibleRequestedTotal <= 0.0 ==> r.coverageRate == 0.0)
    ensures var r := Assemble(budget, applicants, n, t, w, coverage, last, awards, unfunded, ineligible);
      && 0.0 <= r.fullFundingRate <= 1.0
      && (r.eligibleCount > 0 ==> Scales(r.fullFundingRate, r.eligibleCount as real, r.fullyFundedCount as real))
      && (r.eligibleCount == 0 ==> r.fullFundingRate == 0.0)
    ensures var r := Assemble(budget, applicants, n, t, w, coverage, last, awards, unfunded, ineligible);
      && (r.awardedCount > 0 ==> Scales(r.averageAward, r.awardedCount as real, r.budgetUsed))
      && (r.awardedCount == 0 ==> r.averageAward == 0.0)
  {
    var r := Assemble(budget, applicants, n, t, w, coverage, last, awards, unfunded, ineligible);
    if r.eligibleRequestedTotal > 0.0 {
      DivTimes(r.budgetUsed, r.eligibleRequestedTotal);
    }
    if r.eligibleCount > 0 {
      DivideAtMostOne(r.fullyFundedCount as real, r.eligibleCount as real);
      DivTimes(r.fullyFundedCount as real, r.eligibleCount as real);
    }
    if r.awardedCount > 0 {
      DivTimes(r.budgetUsed, r.awardedCount as real);
    }
  }

  /**
    The award statistics: with nothing funded they are all 0; otherwise the minimum, the three
    quartiles and the maximum are in order, the average lies between the minimum and the maximum,
    the minimum and the maximum bound every listed award and are themselves listed awards, and
    when every listed award lies between 0 and its request the average award-to-request rate
    lies in [0, 1].
   */
  lemma SummaryAwardStats(s: seq<Applicant>, budget: real, idxs: seq<nat>)
    requires InRange(idxs, |s|)
    ensures var r := SummaryOf(s, budget, idxs);
      idxs == [] ==>
        r.minAwarded == r.maxAwarded == r.averageAward == 0.0
        && r.awardP25 == r.awardP50 == r.awardP75 == r.awardToRequestAvg == 0.0
    ensures var r := SummaryOf(s, budget, idxs);
      r.minAwarded <= r.awardP25 <= r.awardP50 <= r.awardP75 <= r.maxAwarded
      && r.minAwarded <= r.averageAward <= r.maxAwarded
    ensures var r := SummaryOf(s, budget, idxs);
      && (forall k :: 0 <= k < |idxs| ==> r.minAwarded <= s[idxs[k]].awarded <= r.maxAwarded)
      && (idxs != [] ==> exists k :: 0 <= k < |idxs| && r.minAwarded == s[idxs[k]].awarded)
      && (idxs != [] ==> exists k :: 0 <= k < |idxs| && r.maxAwarded == s[idxs[k]].awarded)
    ensures var r := SummaryOf(s, budget, idxs);
      (forall k :: 0 <= k < |idxs| ==> 0.0 <= s[idxs[k]].awarded <= s[idxs[k]].requested) ==>
        0.0 <= r.awardToRequestAvg <= 1.0
  {
    var r := SummaryOf(s, budget, idxs);
    var w := AwardsTally(s, idxs, |idxs|);
    AwardsTallyStats(s, idxs);
    if idxs != [] {
      assert r.averageAward == AverageFloat(w.amounts);
    }
  }

  /** The statistics of the funded-list tally, from which the summary's award figures are read. */
  lemma AwardsTallyStats(s: seq<Applicant>, idxs: seq<nat>)
    requires InRange(idxs, |s|)
    ensures var w := AwardsTally(s, idxs, |idxs|);
      && |w.amounts| == |idxs| && Sum(w.amounts) == w.budgetUsed
      && (idxs == [] ==> w.amounts == [] && w.rates == [] && w.minAward == w.maxAward == 0.0)
    ensures var w := AwardsTally(s, idxs, |idxs|);
      && w.minAward <= Percentile(w.amounts, 0.25) <= Percentile(w.amounts, 0.50)
      && Percentile(w.amounts, 0.50) <= Percentile(w.amounts, 0.75) <= w.maxAward
      && w.minAward <= AverageFloat(w.amounts) <= w.maxAward
    ensures var w := AwardsTally(s, idxs, |idxs|);
      && (forall k :: 0 <= k < |idxs| ==> w.minAward <= s[idxs[k]].awarded <= w.maxAward)
      && (idxs != [] ==> exists k :: 0 <= k < |idxs| && w.minAward == s[idxs[k]].awarded)
      && (idxs != [] ==> exists k :: 0 <= k < |idxs| && w.maxAward == s[idxs[k]].awarded)
    ensures var w := AwardsTally(s, idxs, |idxs|);
      (forall k :: 0 <= k < |idxs| ==> 0.0 <= s[idxs[k]].awarded <= s[idxs[k]].requested) ==>
        0.0 <= AverageFloat(w.rates) <= 1.0
  {
    AwardsTallySums(s, idxs, |idxs|);
    if idxs != [] {
      var w := AwardsTally(s, idxs, |idxs|);
      AwardsTallyExtremes(s, idxs, |idxs|);
      QuartilesBetween(w.amounts);
      AwardsTallyBounds(s, idxs);
    }
    if forall k :: 0 <= k < |idxs| ==> 0.0 <= s[idxs[k]].awarded <= s[idxs[k]].requested {
      AwardsTallyRateAverage(s, idxs);
    }
  }

  /** Every funded award lies between the tally's extremes, and each extreme is one of them. */
  lemma AwardsTallyBounds(s: seq<Applicant>, idxs: seq<nat>)
    requires InRange(idxs, |s|) && idxs != []
    ensures var w := AwardsTally(s, idxs, |idxs|);
      && (forall k :: 0 <= k < |idxs| ==> w.minAward <= s[idxs[k]].awarded <= w.maxAward)
      && (exists k :: 0 <= k < |idxs| && w.minAward == s[idxs[k]].awarded)
      && (exists k :: 0 <= k < |idxs| && w.maxAward == s[idxs[k]].awarded)
  {
    var w := AwardsTally(s, idxs, |idxs|);
    AwardsTallyAmounts(s, idxs, |idxs|);
    AwardsTallyExtremes(s, idxs, |idxs|);
    ListedExtremes(s, idxs, w.amounts, w.minAward, w.maxAward);
  }

  /** When `v` lists the awards of `idxs`, its minimum and maximum bound them and are among them. */
  lemma ListedExtremes(s: seq<Applicant>, idxs: seq<nat>, v: seq<real>, lo: real, hi: real)
    requires InRange(idxs, |s|) && v != [] && |v| == |idxs|
    requires forall k :: 0 <= k < |idxs| ==> v[k] == s[idxs[k]].awarded
    requires lo == MinOf(v) && hi == MaxOf(v)
    ensures forall k :: 0 <= k < |idxs| ==> lo <= s[idxs[k]].awarded <= hi
    ensures exists k :: 0 <= k < |idxs| && lo == s[idxs[k]].awarded
    ensures exists k :: 0 <= k < |idxs| && hi == s[idxs[k]].awarded
  {
    forall k | 0 <= k < |idxs| ensures lo <= s[idxs[k]].awarded <= hi {
      assert v[k] == s[idxs[k]].awarded;
    }
    var i :| 0 <= i < |v| && v[i] == lo;
    assert v[i] == s[idxs[i]].awarded;
    var j :| 0 <= j < |v| && v[j] == hi;
    assert v[j] == s[idxs[j]].awarded;
  }

  /** With every award between 0 and its request, every award-to-request rate lies in [0, 1]. */
  lemma AwardsTallyRatesWithin(s: seq<Applicant>, idxs: seq<nat>)
    requires InRange(idxs, |s|)
    requires forall k :: 0 <= k < |idxs| ==> 0.0 <= s[idxs[k]].awarded <= s[idxs[k]].requested
    ensures forall j :: 0 <= j < |AwardsTally(s, idxs, |idxs|).rates| ==> 0.0 <= AwardsTally(s, idxs, |idxs|).rates[j] <= 1.0
  {
    AwardsTallyRates(s, idxs, |idxs|);
  }

  /** With every award between 0 and its request, the mean award-to-request rate lies in [0, 1]. */
  lemma AwardsTallyRateAverage(s: seq<Applicant>, idxs: seq<nat>)
    requires InRange(idxs, |s|)
    requires forall k :: 0 <= k < |idxs| ==> 0.0 <= s[idxs[k]].awarded <= s[idxs[k]].requested
    ensures 0.0 <= AverageFloat(AwardsTally(s, idxs, |idxs|).rates) <= 1.0
  {
    AwardsTallyRatesWithin(s, idxs);
    AverageUnit(AwardsTally(s, idxs, |idxs|).rates);
  }

  /**
    The award records: one per funded applicant in list order, and the last-funded fields are
    those of the last award record (all zero and empty when nothing was funded).
   */
  lemma SummaryAwardRecords(s: seq<Applicant>, budget: real, idxs: seq<nat>)
    requires InRange(idxs, |s|)
    ensures var r := SummaryOf(s, budget, idxs);
      && |r.awards| == r.awardedCount
      && (forall k :: 0 <= k < |idxs| ==> r.awards[k] == AwardRecordOf(s[idxs[k]]))
    ensures var r := SummaryOf(s, budget, idxs);
      && (idxs != [] ==>
            var final := r.awards[|r.awards| - 1];
            r.lastFundedPriority == final.priority && r.lastFundedScore == final.score
            && r.lastFundedNeed == final.needLevel && r.lastFundedRequested == final.requested)
      && (idxs == [] ==>
            r.lastFundedPriority == r.lastFundedScore == r.lastFundedRequested == 0.0 && r.lastFundedNeed == "")
  {
  }

  /** The ineligible records: one per ineligible applicant, each carrying that applicant's reasons. */
  lemma SummaryIneligibleRecords(s: seq<Applicant>, budget: real, idxs: seq<nat>)
    requires InRange(idxs, |s|)
    ensures var r := SummaryOf(s, budget, idxs);
      && |r.ineligible| == r.ineligibleCount
      && (forall k :: 0 <= k < |r.ineligible| ==>
            exists j :: 0 <= j < |s| && !s[j].eligible && r.ineligible[k] == IneligibleRecordOf(s[j]))
  {
    var r := SummaryOf(s, budget, idxs);
    var u := Filter(s, IsIneligible);
    ApplicantsTallySpec(s);
    FilterSound(s, IsIneligible);
    assert r.ineligible == IneligibleRecordsOf(u);
    forall k | 0 <= k < |r.ineligible|
      ensures exists j :: 0 <= j < |s| && !s[j].eligible && r.ineligible[k] == IneligibleRecordOf(s[j])
    {
      assert u[k] in u;
      var j :| 0 <= j < |s| && s[j] == u[k];
    }
  }

  /**
    The unfunded records: each is of an eligible applicant without a positive award, and with no
    negative awards there is one per unfunded applicant.
   */
  lemma SummaryUnfundedRecords(s: seq<Applicant>, budget: real, idxs: seq<nat>)
    requires InRange(idxs, |s|)
    ensures forall rec :: rec in SummaryOf(s, budget, idxs).unfunded ==>
      exists j :: 0 <= j < |s| && IsOwed(s[j]) && rec == AwardRecordOf(s[j])
    ensures var r := SummaryOf(s, budget, idxs);
      (forall j :: 0 <= j < |s| ==> 0.0 <= s[j].awarded) ==> |r.unfunded| == r.eligibleUnfundedCount
  {
    var r := SummaryOf(s, budget, idxs);
    var u := Filter(s, IsOwed);
    assert r.unfunded == AwardRecordsOf(u);
    forall rec | rec in r.unfunded
      ensures exists j :: 0 <= j < |s| && IsOwed(s[j]) && rec == AwardRecordOf(s[j])
    {
      var k :| 0 <= k < |r.unfunded| && r.unfunded[k] == rec;
      var j := FilterOrigin(s, IsOwed, k);
      assert r.unfunded[k] == AwardRecordOf(s[j]);
    }
    if forall j :: 0 <= j < |s| ==> 0.0 <= s[j].awarded {
      ApplicantsTallySpec(s);
      FilterSame(s, IsOwed, IsUnfunded);
    }
  }

  /**
    The reason counts: a reason is listed exactly when it is non-empty and recorded for some
    ineligible applicant, and it is listed with the number of ineligible applicants that carry
    exactly that text.
   */
  lemma SummaryReasons(s: seq<Applicant>, budget: real, idxs: seq<nat>)
    requires InRange(idxs, |s|)
    ensures var r := SummaryOf(s, budget, idxs);
      forall m :: m in r.ineligibleReasons <==> m != "" && ReasonCount(s, m) > 0
    ensures var r := SummaryOf(s, budget, idxs);
      forall m :: m in r.ineligibleReasons ==> r.ineligibleReasons[m] == ReasonCount(s, m)
  {
    ApplicantsTallySpec(s);
  }

  /**
    A finished coverage entry: the rate is the awarded part of the tier's request, the two shares
    are the tier's part of all eligible requests and of all money spent, each 0 when its
    denominator is not positive, and the share difference is awarded share minus requested share.
   */
  lemma FinishedEntry(c: NeedCoverage, eligibleRequested: real, budgetUsed: real)
    requires c.coverageRate == c.requestedShare == c.awardedShare == 0.0
    ensures var f := WithShares(WithCoverageRate(c), eligibleRequested, budgetUsed);
      && f.eligibleCount == c.eligibleCount && f.awardedCount == c.awardedCount
      && f.unfundedCount == c.unfundedCount
      && f.requestedTotal == c.requestedTotal && f.awardedTotal == c.awardedTotal
      && f.shareDelta == f.awardedShare - f.requestedShare
      && (c.requestedTotal > 0.0 ==> Scales(f.coverageRate, c.requestedTotal, c.awardedTotal))
      && (c.requestedTotal <= 0.0 ==> f.coverageRate == 0.0)
      && (eligibleRequested > 0.0 ==> Scales(f.requestedShare, eligibleRequested, c.requestedTotal))
      && (eligibleRequested <= 0.0 ==> f.requestedShare == 0.0)
      && (budgetUsed > 0.0 ==> Scales(f.awardedShare, budgetUsed, c.awardedTotal))
      && (budgetUsed <= 0.0 ==> f.awardedShare == 0.0)
  {
    if c.requestedTotal > 0.0 {
      DivTimes(c.awardedTotal, c.requestedTotal);
    }
    if eligibleRequested > 0.0 {
      DivTimes(c.requestedTotal, eligibleRequested);
    }
    if budgetUsed > 0.0 {
      DivTimes(c.awardedTotal, budgetUsed);
    }
  }

  /**
    The keys of the per-tier tables: each always holds the three tiers and otherwise exactly the
    tiers that occur among the applicants it counts.
   */
  lemma SummaryTierKeys(s: seq<Applicant>, budget: real, idxs: seq<nat>)
    requires InRange(idxs, |s|)
    ensures var r := SummaryOf(s, budget, idxs);
      && (forall k :: k in r.needCoverage <==> IsTier(k) || InTier(Filter(s, IsEligible), k) != [])
      && (forall k :: k in r.byNeed <==> IsTier(k) || ListedInTier(s, idxs, k) != [])
      && (forall k :: k in r.unfundedByNeed <==> IsTier(k) || InTier(Filter(s, IsUnfunded), k) != [])
  {
    ApplicantsTallySpec(s);
    AwardsTallyTable(s, idxs);
  }

  /**
    The funded-by-tier table counts and sums the listed applicants of each tier, and the
    unfunded-by-tier table counts the unfunded eligible applicants of each tier and sums their
    requests; a tier missing from a table reads as zero.
   */
  lemma SummaryTierTables(s: seq<Applicant>, budget: real, idxs: seq<nat>)
    requires InRange(idxs, |s|)
    ensures var r := SummaryOf(s, budget, idxs);
      forall k :: Lookup(r.byNeed, k, NoAgg) == ByNeedFrom(s, idxs, k)
    ensures var r := SummaryOf(s, budget, idxs);
      forall k :: Lookup(r.unfundedByNeed, k, NoUnfunded) == UnfundedFrom(s, k)
  {
    ApplicantsTallySpec(s);
    AwardsTallyTable(s, idxs);
  }

  /**
    The coverage table counts, for each of its tiers, the eligible applicants and their requests,
    the awarded ones and their awards, and the unfunded ones.
   */
  lemma SummaryCoverageCounts(s: seq<Applicant>, budget: real, idxs: seq<nat>)
    requires InRange(idxs, |s|)
    ensures var r := SummaryOf(s, budget, idxs);
      forall k :: k in r.needCoverage ==>
        var c := r.needCoverage[k];
        var e := InTier(Filter(s, IsEligible), k);
        var w := InTier(Filter(s, IsAwarded), k);
        && c.eligibleCount == |e| && c.requestedTotal == RequestedTotal(e)
        && c.awardedCount == |w| && c.awardedTotal == AwardedTotal(w)
        && c.unfundedCount == |InTier(Filter(s, IsUnfunded), k)|
  {
    var t := ApplicantsTally(s);
    CoverageEntries(s);
    FinalCoverageCounts(s, t.coverage, t.eligibleRequested, AwardsTally(s, idxs, |idxs|).budgetUsed);
  }

  /** Each entry of the applicant loop's coverage table is the tier's entry computed from the applicants. */
  lemma CoverageEntries(s: seq<Applicant>)
    ensures forall k :: k in ApplicantsTally(s).coverage ==> ApplicantsTally(s).coverage[k] == CoverageFrom(s, k)
  {
    var t := ApplicantsTally(s);
    ApplicantsTallySpec(s);
    forall k | k in t.coverage
      ensures t.coverage[k] == CoverageFrom(s, k)
    {
      assert Lookup(t.coverage, k, NoCoverage) == CoverageFrom(s, k);
    }
  }

  /** Finishing a table of computed entries keeps every count and total of each entry. */
  lemma FinalCoverageCounts(s: seq<Applicant>, c: map<string, NeedCoverage>, eligibleRequested: real, budgetUsed: real)
    requires forall k :: k in c ==> c[k] == CoverageFrom(s, k)
    ensures var m := FinalCoverage(c, eligibleRequested, budgetUsed);
      forall k :: k in m ==>
        var e := InTier(Filter(s, IsEligible), k);
        var w := InTier(Filter(s, IsAwarded), k);
        && m[k].eligibleCount == |e| && m[k].requestedTotal == RequestedTotal(e)
        && m[k].awardedCount == |w| && m[k].awardedTotal == AwardedTotal(w)
        && m[k].unfundedCount == |InTier(Filter(s, IsUnfunded), k)|
  {
  }

  /** Every entry of the coverage table satisfies the relations of a finished entry. */
  lemma SummaryCoverageEntries(s: seq<Applicant>, budget: real, idxs: seq<nat>)
    requires InRange(idxs, |s|)
    ensures var r := SummaryOf(s, budget, idxs);
      forall k :: k in r.needCoverage ==>
        var c := r.needCoverage[k];
        && c.shareDelta == c.awardedShare - c.requestedShare
        && (c.requestedTotal > 0.0 ==> Scales(c.coverageRate, c.requestedTotal, c.awardedTotal))
        && (c.requestedTotal <= 0.0 ==> c.coverageRate == 0.0)
        && (r.eligibleRequestedTotal > 0.0 ==> Scales(c.requestedShare, r.eligibleRequestedTotal, c.requestedTotal))
        && (r.eligibleRequestedTotal <= 0.0 ==> c.requestedShare == 0.0)
        && (r.budgetUsed > 0.0 ==> Scales(c.awardedShare, r.budgetUsed, c.awardedTotal))
        && (r.budgetUsed <= 0.0 ==> c.awardedShare == 0.0)
  {
    var t := ApplicantsTally(s);
    var w := AwardsTally(s, idxs, |idxs|);
    ApplicantsTallySpec(s);
    forall k | k in t.coverage
      ensures var c := FinalCoverage(t.coverage, t.eligibleRequested, w.budgetUsed)[k];
        && c.shareDelta == c.awardedShare - c.requestedShare
        && (c.requestedTotal > 0.0 ==> Scales(c.coverageRate, c.requestedTotal, c.awardedTotal))
        && (c.requestedTotal <= 0.0 ==> c.coverageRate == 0.0)
        && (t.eligibleRequested > 0.0 ==> Scales(c.requestedShare, t.eligibleRequested, c.requestedTotal))
        && (t.eligibleRequested <= 0.0 ==> c.requestedShare == 0.0)
        && (w.budgetUsed > 0.0 ==> Scales(c.awardedShare, w.budgetUsed, c.awardedTotal))
        && (w.budgetUsed <= 0.0 ==> c.awardedShare == 0.0)
    {
      assert Lookup(t.coverage, k, NoCoverage) == CoverageFrom(s, k);
      FinishedEntry(t.coverage[k], t.eligibleRequested, w.budgetUsed);
    }
  }

  // ---------------------------------------------------------------------------------------------
  // Splitting the totals by tier.

  /** The members of a tier list are members of the list in that tier. */
  lemma {:induction false} InTierSound(u: seq<Applicant>, level: string)
    ensures forall x :: x in InTier(u, level) ==> x in u && x.needLevel == level
    decreases |u|
  {
    if u != [] {
      InTierSound(u[..|u| - 1], level);
      forall x | x in u[..|u| - 1] ensures x in u {
        var j :| 0 <= j < |u| - 1 && u[..|u| - 1][j] == x;
        assert u[j] == x;
      }
    }
  }

  /** When every applicant of a list has a tier, the three tier lists share out its count and totals. */
  lemma {:induction false} TierSplit(u: seq<Applicant>)
    requires forall x :: x in u ==> IsTier(x.needLevel)
    ensures |u| == |InTier(u, High)| + |InTier(u, Medium)| + |InTier(u, Low)|
    ensures RequestedTotal(u) == RequestedTotal(InTier(u, High)) + RequestedTotal(InTier(u, Medium)) + RequestedTotal(InTier(u, Low))
    ensures AwardedTotal(u) == AwardedTotal(InTier(u, High)) + AwardedTotal(InTier(u, Medium)) + AwardedTotal(InTier(u, Low))
    decreases |u|
  {
    if u != [] {
      var init, x := u[..|u| - 1], u[|u| - 1];
      assert u == init + [x];
      forall y | y in init ensures IsTier(y.needLevel) {
        assert y in u;
      }
      TierSplit(init);
      InTierSnoc(init, x, High);
      InTierSnoc(init, x, Medium);
      InTierSnoc(init, x, Low);
      TotalsSnoc(InTier(init, x.needLevel), x);
    }
  }

  /** The listed indices of a tier are listed indices whose applicant is in that tier. */
  lemma {:induction false} ListedInTierSound(s: seq<Applicant>, idxs: seq<nat>, level: string)
    requires InRange(idxs, |s|)
    ensures forall e :: e in ListedInTier(s, idxs, level) ==> e in idxs && s[e].needLevel == level
    decreases |idxs|
  {
    if idxs != [] {
      ListedInTierSound(s, idxs[..|idxs| - 1], level);
      forall e | e in idxs[..|idxs| - 1] ensures e in idxs {
        var j :| 0 <= j < |idxs| - 1 && idxs[..|idxs| - 1][j] == e;
        assert idxs[j] == e;
      }
    }
  }

  /** When every listed applicant has a tier, the three tier lists share out the list's count and spending. */
  lemma {:induction false} ListedTierSplit(s: seq<Applicant>, idxs: seq<nat>)
    requires InRange(idxs, |s|)
    requires forall k :: 0 <= k < |idxs| ==> IsTier(s[idxs[k]].needLevel)
    ensures |idxs| == |ListedInTier(s, idxs, High)| + |ListedInTier(s, idxs, Medium)| + |ListedInTier(s, idxs, Low)|
    ensures SumAwarded(s, idxs) == SumAwarded(s, ListedInTier(s, idxs, High))
      + SumAwarded(s, ListedInTier(s, idxs, Medium)) + SumAwarded(s, ListedInTier(s, idxs, Low))
    decreases |idxs|
  {
    if idxs != [] {
      var done, i := idxs[..|idxs| - 1], idxs[|idxs| - 1];
      assert idxs == done + [i];
      ListedTierSplit(s, done);
      ListedInTierSnoc(s, done, i, High);
      ListedInTierSnoc(s, done, i, Medium);
      ListedInTierSnoc(s, done, i, Low);
      SumAwardedSnoc(s, ListedInTier(s, done, s[i].needLevel), i);
    }
  }

  /** A table keyed by the three tiers and the tiers occurring in `u` has just the three when every member of `u` has one. */
  lemma KeysAreTiers<T>(m: map<string, T>, u: seq<Applicant>)
    requires forall x :: x in u ==> IsTier(x.needLevel)
    requires forall k :: k in m <==> IsTier(k) || InTier(u, k) != []
    ensures forall k :: k in m <==> IsTier(k)
  {
    forall k | InTier(u, k) != [] ensures IsTier(k) {
      InTierSound(u, k);
      assert InTier(u, k)[0] in InTier(u, k);
    }
  }

  /** A tier that occurs among the listed applicants is one of the three when every listed applicant has one. */
  lemma ListedTierIsTier(s: seq<Applicant>, idxs: seq<nat>, k: string)
    requires InRange(idxs, |s|)
    requires forall i :: 0 <= i < |idxs| ==> IsTier(s[idxs[i]].needLevel)
    requires ListedInTier(s, idxs, k) != []
    ensures IsTier(k)
  {
    ListedInTierSound(s, idxs, k);
    var e := ListedInTier(s, idxs, k)[0];
    assert e in ListedInTier(s, idxs, k);
    var j :| 0 <= j < |idxs| && idxs[j] == e;
    assert IsTier(s[idxs[j]].needLevel);
  }

  /** The same for a table keyed by the tiers of the listed applicants. */
  lemma ListedKeysAreTiers<T>(m: map<string, T>, s: seq<Applicant>, idxs: seq<nat>)
    requires InRange(idxs, |s|)
    requires forall i :: 0 <= i < |idxs| ==> IsTier(s[idxs[i]].needLevel)
    requires forall k :: k in m <==> IsTier(k) || ListedInTier(s, idxs, k) != []
    ensures forall k :: k in m <==> IsTier(k)
  {
    forall k ensures k in m <==> IsTier(k) {
      ListedKeyIsTier(m, s, idxs, k);
    }
  }

  lemma ListedKeyIsTier<T>(m: map<string, T>, s: seq<Applicant>, idxs: seq<nat>, k: string)
    requires InRange(idxs, |s|)
    requires forall i :: 0 <= i < |idxs| ==> IsTier(s[idxs[i]].needLevel)
    requires k in m <==> IsTier(k) || ListedInTier(s, idxs, k) != []
    ensures k in m <==> IsTier(k)
  {
    if ListedInTier(s, idxs, k) != [] {
      ListedTierIsTier(s, idxs, k);
    }
  }

  /**
    The applicant tally when every eligible applicant has a tier: the coverage and unfunded
    tables hold exactly the three tiers, and their counts and totals add up to the tally's own.
   */
  lemma TallyTierSplit(s: seq<Applicant>)
    requires forall j :: 0 <= j < |s| && s[j].eligible ==> IsTier(s[j].needLevel)
    ensures var t := ApplicantsTally(s);
      (forall k :: k in t.coverage <==> IsTier(k)) && (forall k :: k in t.unfundedByNeed <==> IsTier(k))
    ensures var t := ApplicantsTally(s);
      var c := t.coverage;
      && c[High].eligibleCount + c[Medium].eligibleCount + c[Low].eligibleCount == t.eligibleCount
      && c[High].requestedTotal + c[Medium].requestedTotal + c[Low].requestedTotal == t.eligibleRequested
      && c[High].unfundedCount + c[Medium].unfundedCount + c[Low].unfundedCount == t.unfundedCount
      && c[High].coverageRate == c[Medium].coverageRate == c[Low].coverageRate == 0.0
      && c[High].requestedShare == c[Medium].requestedShare == c[Low].requestedShare == 0.0
      && c[High].awardedShare == c[Medium].awardedShare == c[Low].awardedShare == 0.0
    ensures var t := ApplicantsTally(s);
      var u := t.unfundedByNeed;
      && u[High].count + u[Medium].count + u[Low].count == t.unfundedCount
      && u[High].requested + u[Medium].requested + u[Low].requested == t.unfundedAmount
  {
    var t := ApplicantsTally(s);
    ApplicantsTallySpec(s);
    CoverageTableSplit(s, t.coverage);
    UnfundedTableSplit(s, t.unfundedByNeed);
  }

  /** When every applicant of `s` that `p` keeps has a tier, so does every member of the filtered list. */
  lemma FilteredTiers(s: seq<Applicant>, p: Applicant -> bool)
    requires forall j :: 0 <= j < |s| && p(s[j]) ==> IsTier(s[j].needLevel)
    ensures forall x :: x in Filter(s, p) ==> IsTier(x.needLevel)
  {
    FilterSound(s, p);
    forall x | x in Filter(s, p) ensures IsTier(x.needLevel) {
      var j :| 0 <= j < |s| && s[j] == x;
    }
  }

  /** A coverage table read off `s` holds the three tiers and splits the eligible counts and totals over them. */
  lemma CoverageTableSplit(s: seq<Applicant>, c: map<string, NeedCoverage>)
    requires forall j :: 0 <= j < |s| && s[j].eligible ==> IsTier(s[j].needLevel)
    requires forall k :: k in c <==> IsTier(k) || InTier(Filter(s, IsEligible), k) != []
    requires forall k :: Lookup(c, k, NoCoverage) == CoverageFrom(s, k)
    ensures forall k :: k in c <==> IsTier(k)
    ensures High in c && Medium in c && Low in c
    ensures c[High].eligibleCount + c[Medium].eligibleCount + c[Low].eligibleCount == |Filter(s, IsEligible)|
    ensures c[High].requestedTotal + c[Medium].requestedTotal + c[Low].requestedTotal == RequestedTotal(Filter(s, IsEligible))
    ensures c[High].unfundedCount + c[Medium].unfundedCount + c[Low].unfundedCount == |Filter(s, IsUnfunded)|
    ensures c[High].coverageRate == c[Medium].coverageRate == c[Low].coverageRate == 0.0
    ensures c[High].requestedShare == c[Medium].requestedShare == c[Low].requestedShare == 0.0
    ensures c[High].awardedShare == c[Medium].awardedShare == c[Low].awardedShare == 0.0
  {
    FilteredTiers(s, IsEligible);
    FilteredTiers(s, IsUnfunded);
    KeysAreTiers(c, Filter(s, IsEligible));
    assert Lookup(c, High, NoCoverage) == CoverageFrom(s, High);
    assert Lookup(c, Medium, NoCoverage) == CoverageFrom(s, Medium);
    assert Lookup(c, Low, NoCoverage) == CoverageFrom(s, Low);
    TierSplit(Filter(s, IsEligible));
    TierSplit(Filter(s, IsUnfunded));
  }

  /** An unfunded table read off `s` holds the three tiers and splits the unfunded count and amount over them. */
  lemma UnfundedTableSplit(s: seq<Applicant>, u: map<string, NeedUnfunded>)
    requires forall j :: 0 <= j < |s| && s[j].eligible ==> IsTier(s[j].needLevel)
    requires forall k :: k in u <==> IsTier(k) || InTier(Filter(s, IsUnfunded), k) != []
    requires forall k :: Lookup(u, k, NoUnfunded) == UnfundedFrom(s, k)
    ensures forall k :: k in u <==> IsTier(k)
    ensures High in u && Medium in u && Low in u
    ensures u[High].count + u[Medium].count + u[Low].count == |Filter(s, IsUnfunded)|
    ensures u[High].requested + u[Medium].requested + u[Low].requested == RequestedTotal(Filter(s, IsUnfunded))
  {
    FilteredTiers(s, IsUnfunded);
    KeysAreTiers(u, Filter(s, IsUnfunded));
    assert Lookup(u, High, NoUnfunded) == UnfundedFrom(s, High);
    assert Lookup(u, Medium, NoUnfunded) == UnfundedFrom(s, Medium);
    assert Lookup(u, Low, NoUnfunded) == UnfundedFrom(s, Low);
    TierSplit(Filter(s, IsUnfunded));
  }

  /**
    The finished coverage table of a tally whose table holds exactly the three tiers with zero rates
    and shares: it holds the same tiers with the same counts and totals, and when the tiers' requests
    add up to a positive total their shares of it add up to 1.
   */
  lemma FinalCoverageSplit(c: map<string, NeedCoverage>, eligibleRequested: real, budgetUsed: real)
    requires forall k :: k in c <==> IsTier(k)
    requires High in c && Medium in c && Low in c
    requires forall k :: k in c ==> c[k].coverageRate == c[k].requestedShare == c[k].awardedShare == 0.0
    requires c[High].requestedTotal + c[Medium].requestedTotal + c[Low].requestedTotal == eligibleRequested
    ensures var f := FinalCoverage(c, eligibleRequested, budgetUsed);
      && (forall k :: k in f <==> IsTier(k))
      && (forall k :: k in c ==>
            f[k].eligibleCount == c[k].eligibleCount && f[k].requestedTotal == c[k].requestedTotal
            && f[k].unfundedCount == c[k].unfundedCount)
      && (eligibleRequested > 0.0 ==> f[High].requestedShare + f[Medium].requestedShare + f[Low].requestedShare == 1.0)
  {
    var f := FinalCoverage(c, eligibleRequested, budgetUsed);
    forall k | k in c
      ensures f[k].eligibleCount == c[k].eligibleCount && f[k].requestedTotal == c[k].requestedTotal
      ensures f[k].unfundedCount == c[k].unfundedCount
      ensures eligibleRequested > 0.0 ==> Scales(f[k].requestedShare, eligibleRequested, c[k].requestedTotal)
    {
      FinishedEntry(c[k], eligibleRequested, budgetUsed);
    }
    if eligibleRequested > 0.0 {
      FractionsSumToOne(f[High].requestedShare, f[Medium].requestedShare, f[Low].requestedShare,
        c[High].requestedTotal, c[Medium].requestedTotal, c[Low].requestedTotal, eligibleRequested);
    }
  }

  /**
    When every eligible applicant has one of the three tiers, the coverage table and the
    unfunded-by-tier table hold exactly the three tiers, their counts and totals add up to the
    summary's, and the tiers' shares of the eligible requests add up to 1.
   */
  lemma SummaryTierSplit(s: seq<Applicant>, budget: real, idxs: seq<nat>)
    requires InRange(idxs, |s|)
    requires forall j :: 0 <= j < |s| && s[j].eligible ==> IsTier(s[j].needLevel)
    ensures var r := SummaryOf(s, budget, idxs);
      (forall k :: k in r.needCoverage <==> IsTier(k)) && (forall k :: k in r.unfundedByNeed <==> IsTier(k))
    ensures var r := SummaryOf(s, budget, idxs);
      var c := r.needCoverage;
      && c[High].eligibleCount + c[Medium].eligibleCount + c[Low].eligibleCount == r.eligibleCount
      && c[High].requestedTotal + c[Medium].requestedTotal + c[Low].requestedTotal == r.eligibleRequestedTotal
      && c[High].unfundedCount + c[Medium].unfundedCount + c[Low].unfundedCount == r.eligibleUnfundedCount
      && (r.eligibleRequestedTotal > 0.0 ==>
            c[High].requestedShare + c[Medium].requestedShare + c[Low].requestedShare == 1.0)
    ensures var r := SummaryOf(s, budget, idxs);
      var u := r.unfundedByNeed;
      && u[High].count + u[Medium].count + u[Low].count == r.eligibleUnfundedCount
      && u[High].requested + u[Medium].requested + u[Low].requested == r.eligibleUnfundedAmount
  {
    var t := ApplicantsTally(s);
    var w := AwardsTally(s, idxs, |idxs|);
    TallyTierSplit(s);
    FinalCoverageSplit(t.coverage, t.eligibleRequested, w.budgetUsed);
  }

  /**
    The funded-list tally when every listed applicant has a tier: its table holds exactly the three
    tiers and their counts and spending add up to the list's length and the amount spent.
   */
  lemma TallyByNeedSplit(s: seq<Applicant>, idxs: seq<nat>)
    requires InRange(idxs, |s|)
    requires forall k :: 0 <= k < |idxs| ==> IsTier(s[idxs[k]].needLevel)
    ensures var w := AwardsTally(s, idxs, |idxs|);
      && (forall k :: k in w.byNeed <==> IsTier(k))
      && w.byNeed[High].awardedCount + w.byNeed[Medium].awardedCount + w.byNeed[Low].awardedCount == |idxs|
      && w.byNeed[High].budgetUsed + w.byNeed[Medium].budgetUsed + w.byNeed[Low].budgetUsed == w.budgetUsed
  {
    var w := AwardsTally(s, idxs, |idxs|);
    AwardsTallyTable(s, idxs);
    ByNeedTableSplit(s, idxs, w.byNeed, w.budgetUsed);
  }

  /** A funded-by-tier table read off `idxs` splits the list's length and spending over the three tiers. */
  lemma ByNeedTableSplit(s: seq<Applicant>, idxs: seq<nat>, m: map<string, NeedAgg>, spent: real)
    requires InRange(idxs, |s|)
    requires forall k :: 0 <= k < |idxs| ==> IsTier(s[idxs[k]].needLevel)
    requires forall k :: k in m <==> IsTier(k) || ListedInTier(s, idxs, k) != []
    requires forall k :: Lookup(m, k, NoAgg) == ByNeedFrom(s, idxs, k)
    requires spent == SumAwarded(s, idxs)
    ensures forall k :: k in m <==> IsTier(k)
    ensures High in m && Medium in m && Low in m
    ensures m[High].awardedCount + m[Medium].awardedCount + m[Low].awardedCount == |idxs|
    ensures m[High].budgetUsed + m[Medium].budgetUsed + m[Low].budgetUsed == spent
  {
    ListedKeysAreTiers(m, s, idxs);
    var h, md, l := ListedInTier(s, idxs, High), ListedInTier(s, idxs, Medium), ListedInTier(s, idxs, Low);
    assert m[High] == NeedAgg(|h|, SumAwarded(s, h)) by {
      assert Lookup(m, High, NoAgg) == ByNeedFrom(s, idxs, High);
    }
    assert m[Medium] == NeedAgg(|md|, SumAwarded(s, md)) by {
      assert Lookup(m, Medium, NoAgg) == ByNeedFrom(s, idxs, Medium);
    }
    assert m[Low] == NeedAgg(|l|, SumAwarded(s, l)) by {
      assert Lookup(m, Low, NoAgg) == ByNeedFrom(s, idxs, Low);
    }
    ListedTierSplit(s, idxs);
  }

  /**
    When every funded applicant has one of the three tiers, the funded-by-tier table holds exactly
    the three tiers and its counts and spending add up to the number funded and the amount spent.
   */
  lemma SummaryByNeedSplit(s: seq<Applicant>, budget: real, idxs: seq<nat>)
    requires InRange(idxs, |s|)
    requires forall k :: 0 <= k < |idxs| ==> IsTier(s[idxs[k]].needLevel)
    ensures var r := SummaryOf(s, budget, idxs);
      && (forall k :: k in r.byNeed <==> IsTier(k))
      && r.byNeed[High].awardedCount + r.byNeed[Medium].awardedCount + r.byNeed[Low].awardedCount == r.awardedCount
      && r.byNeed[High].budgetUsed + r.byNeed[Medium].budgetUsed + r.byNeed[Low].budgetUsed == r.budgetUsed
  {
    TallyByNeedSplit(s, idxs);
  }

  // ---------------------------------------------------------------------------------------------
  // The summary of an allocation.

  /**
    Summarising what the allocator produced, under the configuration the command line accepts:
    the money spent never exceeds the budget, so what is left is never negative and the shortfall
    against the budget is never more than the gap against the money spent; every funded applicant
    was eligible and unfunded before allocation.
   */
  lemma SummaryOfAllocation(s: seq<Applicant>, budget: real, lim: Limits, reserveHigh: real, reserveMedium: real, reserveLow: real)
    requires 0.0 <= budget
    requires 0.0 <= reserveHigh && 0.0 <= reserveMedium && 0.0 <= reserveLow
    requires reserveHigh + reserveMedium + reserveLow <= 1.0
    ensures var a := Allocate(s, budget, lim, reserveHigh, reserveMedium, reserveLow);
      && |a.apps| == |s| && InRange(a.awarded, |a.apps|)
      && var r := SummaryOf(a.apps, budget, a.awarded);
         && r.applicants == |s|
         && r.budgetUsed <= budget && 0.0 <= r.budgetLeft
         && r.budgetShortfall <= r.fundingGapTotal
         && r.awardedCount == |a.awarded|
         && (forall k :: 0 <= k < |a.awarded| ==> s[a.awarded[k]].eligible && s[a.awarded[k]].awarded == 0.0)
  {
    var a := Allocate(s, budget, lim, reserveHigh, reserveMedium, reserveLow);
    AllocateWithinBudget(s, budget, lim, reserveHigh, reserveMedium, reserveLow);
    AllocateFunded(s, budget, lim, reserveHigh, reserveMedium, reserveLow);
    SummaryCounts(a.apps, budget, a.awarded);
    SummaryRates(a.apps, budget, a.awarded);
    forall k | 0 <= k < |a.awarded| ensures s[a.awarded[k]].eligible && s[a.awarded[k]].awarded == 0.0 {
      assert a.awarded[k] in a.awarded;
    }
  }

  // ---------------------------------------------------------------------------------------------
  // The repository's unit test of the summary.

  function ExampleApplicants(): seq<Applicant> {
    [Applicant("1", "", High, 90.0, 0.0, 1000.0, 0.0, 1000.0, true, ""),
     Applicant("2", "", Low, 80.0, 0.0, 500.0, 0.0, 0.0, true, ""),
     Applicant("3", "", Medium, 70.0, 0.0, 300.0, 0.0, 200.0, true, ""),
     Applicant("4", "", Low, 60.0, 0.0, 0.0, 0.0, 0.0, false, RequestNotPositive)]
  }

  /** The applicant loop over the test's records. */
  lemma ExampleTally()
    ensures var t := ApplicantsTally(ExampleApplicants());
      && t.eligibleCount == 3 && t.ineligibleCount == 1 && t.unfundedCount == 1
      && t.fullyFunded == 1 && t.partiallyFunded == 1 && t.eligibleRequested == 1800.0
      && High in t.coverage
      && t.coverage[High].requestedTotal == 1000.0 && t.coverage[High].awardedTotal == 1000.0
      && t.coverage[High].coverageRate == t.coverage[High].requestedShare == t.coverage[High].awardedShare == 0.0
  {
    var s := ExampleApplicants();
    var t1 := TallyApplicant(NoApplicants, s[0]);
    var t2 := TallyApplicant(t1, s[1]);
    var t3 := TallyApplicant(t2, s[2]);
    var t4 := TallyApplicant(t3, s[3]);
    assert s[..0] == [] && s[..1][..0] == [] && s[..2][..1] == s[..1] && s[..3][..2] == s[..2] && s[..4][..3] == s[..3];
    assert ApplicantsTally(s[..1]) == t1;
    assert ApplicantsTally(s[..2]) == t2;
    assert ApplicantsTally(s[..3]) == t3;
    assert s[..4] == s;
    assert ApplicantsTally(s) == t4;
  }

  /** The funded-list loop over the test's funded list: 1000 and 200 spent. */
  lemma ExampleAwardsTally()
    ensures AwardsTally(ExampleApplicants(), [0, 2], 2).budgetUsed == 1200.0
  {
    var s := ExampleApplicants();
    assert AwardsTally(s, [0, 2], 1).budgetUsed == 1000.0;
  }

  /**
    Three eligible applicants, one ineligible; the first is paid in full, the third in part, the
    second nothing; with a budget of 1500 and the first and third funded, the summary reports the
    counts, gap, requirement and shortfall the test expects, and the high tier's shares of the
    requests (1000 of 1800) and of the money spent (1000 of 1200).
   */
  lemma SummaryExample()
    ensures var r := SummaryOf(ExampleApplicants(), 1500.0, [0, 2]);
      && r.eligibleCount == 3 && r.awardedCount == 2 && r.eligibleUnfundedCount == 1
      && r.ineligibleCount == 1 && r.fullyFundedCount == 1 && r.partiallyFundedCount == 1
      && r.fundingGapTotal == 600.0 && r.budgetRequiredFull == 1800.0 && r.budgetShortfall == 300.0
      && High in r.needCoverage
      && r.needCoverage[High].requestedShare == 1000.0 / 1800.0
      && r.needCoverage[High].awardedShare == 1000.0 / 1200.0
  {
    var s := ExampleApplicants();
    ExampleTally();
    ExampleAwardsTally();
    var t := ApplicantsTally(s);
    var w := AwardsTally(s, [0, 2], 2);
    var c := FinalCoverage(t.coverage, t.eligibleRequested, w.budgetUsed);
    assert c[High] == WithShares(WithCoverageRate(t.coverage[High]), 1800.0, 1200.0);
  }
}
