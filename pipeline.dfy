/**
  The run configuration, the checks the command line applies to it before anything is read, and
  the allocation run in its fixed order: minimum score, normalisation, priority, ranking,
  allocation, summary and the what-if budgets.
 */
module Pipeline {
  import opened Applicants
  import opened Allocation
  import opened Scoring
  import opened Ranking
  import opened Tally
  import opened Summary
  import opened SummaryProps
  import opened Scenario

  /** The numeric options of a run (`inputPath` stands for the input file option; only its emptiness matters). */
  datatype Config = Config(
    inputPath: string,
    budget: real,
    minAward: real,
    maxAward: real,
    scoreWeight: real,
    needWeight: real,
    reserveHigh: real,
    reserveMedium: real,
    reserveLow: real,
    roundTo: real,
    maxPercent: real,
    minScore: real)

  datatype Verdict = Accepted | Rejected(msg: string)

  const MissingInput: string := "input and budget are required"

  /** A configuration every check accepts. */
  predicate ValidConfig(c: Config) {
    && c.inputPath != [] && 0.0 < c.budget
    && 0.0 <= c.minAward && 0.0 < c.maxAward && c.minAward <= c.maxAward
    && 0.0 <= c.scoreWeight && 0.0 <= c.needWeight
    && 0.0 <= c.reserveHigh <= 1.0 && 0.0 <= c.reserveMedium <= 1.0 && 0.0 <= c.reserveLow <= 1.0
    && c.reserveHigh + c.reserveMedium + c.reserveLow <= 1.0
    && 0.0 <= c.roundTo
    && 0.0 < c.maxPercent <= 1.0
    && 0.0 <= c.minScore
    && c.scoreWeight + c.needWeight != 0.0
  }

  /** The checks in the order the command line applies them; the first that fails gives the message. */
  function CheckConfig(c: Config): (r: Verdict)
    ensures c.inputPath == [] || c.budget <= 0.0 ==> r == Rejected(MissingInput)
  {
    if c.inputPath == [] || c.budget <= 0.0 then Rejected(MissingInput)
    else if c.minAward < 0.0 || c.maxAward <= 0.0 || c.maxAward < c.minAward then Rejected("invalid min/max award values")
    else if c.scoreWeight < 0.0 || c.needWeight < 0.0 then Rejected("weights must be non-negative")
    else if c.reserveHigh < 0.0 || c.reserveHigh > 1.0 then Rejected("reserve-high must be between 0 and 1")
    else if c.reserveMedium < 0.0 || c.reserveMedium > 1.0 then Rejected("reserve-medium must be between 0 and 1")
    else if c.reserveLow < 0.0 || c.reserveLow > 1.0 then Rejected("reserve-low must be between 0 and 1")
    else if c.reserveHigh + c.reserveMedium + c.reserveLow > 1.0 then Rejected("reserve shares must sum to 1 or less")
    else if c.roundTo < 0.0 then Rejected("round must be >= 0")
    else if c.maxPercent <= 0.0 || c.maxPercent > 1.0 then Rejected("max-percent must be between 0 (exclusive) and 1")
    else if c.minScore < 0.0 then Rejected("min-score must be >= 0")
    else if c.scoreWeight + c.needWeight == 0.0 then Rejected("score-weight and need-weight cannot both be zero")
    else Accepted
  }

  /** The checks accept a configuration exactly when it is valid. */
  lemma CheckConfigAccepts(c: Config)
    ensures CheckConfig(c) == Accepted <==> ValidConfig(c)
  {
  }

  function LimitsOf(c: Config): Limits {
    Limits(c.minAward, c.maxAward, c.roundTo, c.maxPercent)
  }

  /**
    An accepted configuration gives priority blending positive total weight, gives the allocator
    a non-negative budget and reserve shares that sum to at most 1, and gives the award calculator
    a floor not above the largest award.
   */
  lemma AcceptedConfig(c: Config)
    requires CheckConfig(c) == Accepted
    ensures 0.0 <= c.scoreWeight && 0.0 <= c.needWeight && 0.0 < c.scoreWeight + c.needWeight
    ensures 0.0 <= c.budget && 0.0 <= c.reserveHigh && 0.0 <= c.reserveMedium && 0.0 <= c.reserveLow
    ensures c.reserveHigh + c.reserveMedium + c.reserveLow <= 1.0
    ensures 0.0 < c.maxPercent <= 1.0 && c.minAward <= c.maxAward
  {
    CheckConfigAccepts(c);
  }

  /**
    The ranked applicants the allocator receives: the minimum-score check, normalisation and
    priority blending, in that order, and then the stable sort.
   */
  function Prepared(s: seq<Applicant>, c: Config, minScoreReason: string): seq<Applicant>
    requires 0.0 < c.scoreWeight + c.needWeight
  {
    RankOrder(Prioritized(Normalized(MinScored(s, c.minScore, minScoreReason)), c.scoreWeight, c.needWeight))
  }

  /**
    The run in its fixed order over the loaded applicants: the final array and the funded list are
    those the allocator makes of the prepared applicants. The funded list names distinct slots,
    only eligible applicants are funded, the summary is that of the final array, it never spends
    more than the budget, and there is one what-if result per extra budget. `minScoreReason` is the
    message text for a score below `c.minScore`.
   */
  method RunAllocation(a: array<Applicant>, c: Config, minScoreReason: string, scenarioBudgets: seq<real>)
    returns (awarded: seq<nat>, summary: AllocationSummary, scenarios: seq<ScenarioResult>)
    requires ValidConfig(c)
    modifies a
    ensures a[..] == Allocate(Prepared(old(a[..]), c, minScoreReason), c.budget, LimitsOf(c), c.reserveHigh, c.reserveMedium, c.reserveLow).apps
    ensures awarded == Allocate(Prepared(old(a[..]), c, minScoreReason), c.budget, LimitsOf(c), c.reserveHigh, c.reserveMedium, c.reserveLow).awarded
    ensures InRange(awarded, a.Length) && Distinct(awarded)
    ensures forall k :: 0 <= k < |awarded| ==> a[awarded[k]].eligible
    ensures summary == SummaryOf(a[..], c.budget, awarded)
    ensures summary.budgetUsed <= c.budget && 0.0 <= summary.budgetLeft
    ensures |scenarios| == |scenarioBudgets|
    ensures forall k :: 0 <= k < |scenarioBudgets| ==>
      scenarios[k] == ScenarioRun(a[..], scenarioBudgets[k], LimitsOf(c), c.reserveHigh, c.reserveMedium, c.reserveLow)
  {
    ghost var loaded := a[..];
    ApplyMinScore(a, c.minScore, minScoreReason);
    ghost var checked := a[..];
    NormalizeScores(a);
    ghost var normalized := a[..];
    AssignPriority(a, c.scoreWeight, c.needWeight);
    ghost var prioritized := a[..];
    SortApplicants(a);
    ghost var ranked := a[..];
    assert ranked == Prepared(loaded, c, minScoreReason) by {
      assert checked == MinScored(loaded, c.minScore, minScoreReason);
      assert normalized == Normalized(checked);
      assert prioritized == Prioritized(normalized, c.scoreWeight, c.needWeight);
    }
    awarded := AllocateBudget(a, c.budget, LimitsOf(c), c.reserveHigh, c.reserveMedium, c.reserveLow);
    SummaryOfAllocation(ranked, c.budget, LimitsOf(c), c.reserveHigh, c.reserveMedium, c.reserveLow);
    AllocateFunded(ranked, c.budget, LimitsOf(c), c.reserveHigh, c.reserveMedium, c.reserveLow);
    forall k | 0 <= k < |awarded| ensures a[awarded[k]].eligible {
      assert a[awarded[k]] == ranked[awarded[k]].(awarded := a[awarded[k]].awarded);
    }
    summary := Summarize(a, c.budget, awarded);
    scenarios := BuildScenarioResults(a, scenarioBudgets, LimitsOf(c), c.reserveHigh, c.reserveMedium, c.reserveLow);
  }

  /** The repository's allocation example as loaded: raw scores only, nothing derived yet. */
  const ExampleLoaded: seq<Applicant> := [
    Applicant("a1", "A", High, 95.0, 0.0, 300.0, 0.0, 0.0, true, ""),
    Applicant("a2", "B", High, 90.0, 0.0, 300.0, 0.0, 0.0, true, ""),
    Applicant("a3", "C", Low, 85.0, 0.0, 300.0, 0.0, 0.0, true, ""),
    Applicant("a4", "D", Low, 80.0, 0.0, 300.0, 0.0, 0.0, true, "")]

  /**
    Normalising the example, blending with weights 0.7 and 0.3 and ranking it gives the ranked
    applicants the allocation example starts from.
   */
  lemma ExampleIsPrepared()
    ensures RankOrder(Prioritized(Normalized(ExampleLoaded), 0.7, 0.3)) == ExampleRanked
  {
    ExampleBlend();
    ExampleAlreadyRanked();
  }

  /** The largest raw score of the example is 95. */
  lemma ExampleDenominator()
    ensures ScoreDenominator(ExampleLoaded) == 95.0
  {
    var s := ExampleLoaded;
    assert MaxRawScore(s[..1]) == 95.0 by { assert s[..1][..0] == []; }
    assert MaxRawScore(s[..2]) == 95.0 by { assert s[..2][..1] == s[..1]; }
    assert MaxRawScore(s[..3]) == 95.0 by { assert s[..3][..2] == s[..2]; }
    assert s[..3] == s[..|s| - 1];
  }

  /** Normalising and blending the example gives the scores and priorities of the ranked example. */
  lemma ExampleBlend()
    ensures Prioritized(Normalized(ExampleLoaded), 0.7, 0.3) == ExampleRanked
  {
    ExampleDenominator();
    assert ToLower(High) == High && ToLower(Low) == Low;
    var n := Normalized(ExampleLoaded);
    assert n[0].scoreNorm == 1.0 && n[1].scoreNorm == 18.0 / 19.0;
    assert n[2].scoreNorm == 17.0 / 19.0 && n[3].scoreNorm == 16.0 / 19.0;
  }

  /** The priorities of the example strictly decrease, so ranking leaves it as it is. */
  lemma ExampleAlreadyRanked()
    ensures RankOrder(ExampleRanked) == ExampleRanked
  {
    var t := ExampleRanked;
    assert Ranked(t) by {
      assert !Before(t[1], t[0]) && !Before(t[2], t[1]) && !Before(t[3], t[2]);
      assert !Before(t[2], t[0]) && !Before(t[3], t[1]) && !Before(t[3], t[0]);
    }
    RankOrderUnique(t, t);
  }
}
