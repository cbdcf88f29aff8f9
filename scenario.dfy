/**
  What-if budgets: for each extra budget the allocation is re-run on fresh copies of the ranked
  applicants with their awards cleared, and a short result is kept per budget. The copies leave the
  applicants of the main run untouched.
 */
module Scenario {
  import opened Applicants
  import opened Arith
  import opened Allocation
  import opened Stats
  import opened Tally
  import opened Summary

  /** The figures kept for one what-if budget. */
  datatype ScenarioResult = ScenarioResult(
    budget: real,
    budgetUsed: real,
    budgetLeft: real,
    budgetRequiredFull: real,
    awardedCount: nat,
    eligibleCount: nat,
    eligibleUnfundedCount: nat,
    fullyFundedCount: nat,
    partiallyFundedCount: nat,
    coverageRate: real,
    fullFundingRate: real,
    fundingGapTotal: real,
    averageAward: real,
    awardToRequestAvg: real)

  /** The applicants with every award set back to 0 and nothing else changed. */
  function Cleared(s: seq<Applicant>): (r: seq<Applicant>)
    ensures |r| == |s|
  {
    if s == [] then [] else Cleared(s[..|s| - 1]) + [s[|s| - 1].(awarded := 0.0)]
  }

  /** Clearing changes exactly the awards, and sets each of them to 0. */
  lemma {:induction false} ClearedSpec(s: seq<Applicant>)
    ensures forall j :: 0 <= j < |s| ==> Cleared(s)[j] == s[j].(awarded := 0.0)
    decreases |s|
  {
    if s != [] {
      ClearedSpec(s[..|s| - 1]);
    }
  }

  /** Two lists that differ at most in their awards clear to the same list. */
  lemma ClearedForgetsAwards(s: seq<Applicant>, t: seq<Applicant>)
    requires |s| == |t| && forall j :: 0 <= j < |s| ==> t[j] == s[j].(awarded := t[j].awarded)
    ensures Cleared(s) == Cleared(t)
  {
    ClearedSpec(s);
    ClearedSpec(t);
  }

  /** Clearing a list whose awards are all 0 gives the list back. */
  lemma ClearedUnawarded(s: seq<Applicant>)
    requires forall j :: 0 <= j < |s| ==> s[j].awarded == 0.0
    ensures Cleared(s) == s
  {
    ClearedSpec(s);
  }

  /** A fresh array holding a copy of each applicant with its award cleared. */
  method CloneApplicants(a: array<Applicant>) returns (c: array<Applicant>)
    ensures fresh(c)
    ensures c[..] == Cleared(a[..])
  {
    c := new Applicant[a.Length](i => Applicant("", "", "", 0.0, 0.0, 0.0, 0.0, 0.0, false, ""));
    for i := 0 to a.Length
      invariant c[..i] == Cleared(a[..i])
    {
      assert a[..i + 1][..i] == a[..i];
      c[i] := a[i].(awarded := 0.0);
      assert c[..i + 1] == c[..i] + [c[i]];
    }
    assert a[..a.Length] == a[..] && c[..a.Length] == c[..];
  }

  // ---------------------------------------------------------------------------------------------
  // The scenario's one loop over the applicants.

  datatype ScenarioTally = ScenarioTally(
    eligibleCount: nat,
    unfundedCount: nat,
    fullyFunded: nat,
    partiallyFunded: nat,
    eligibleRequested: real,
    rates: seq<real>)

  /**
    One applicant: an ineligible one is skipped; an eligible one adds its request to the total and
    counts as unfunded (award exactly 0), fully funded or partially funded; a funded one with a
    positive request adds its award-to-request ratio.
   */
  function TallyScenario(t: ScenarioTally, x: Applicant): ScenarioTally {
    if !x.eligible then t
    else
      var t1 := t.(eligibleCount := t.eligibleCount + 1, eligibleRequested := t.eligibleRequested + x.requested);
      if x.awarded == 0.0 then t1.(unfundedCount := t1.unfundedCount + 1)
      else
        var t2 := if x.awarded >= x.requested then t1.(fullyFunded := t1.fullyFunded + 1)
                  else t1.(partiallyFunded := t1.partiallyFunded + 1);
        if x.requested > 0.0 then t2.(rates := t2.rates + [x.awarded / x.requested]) else t2
  }

  /** The tally after the loop has seen all of `s`. */
  function ScenarioTallyOf(s: seq<Applicant>): ScenarioTally {
    if s == [] then ScenarioTally(0, 0, 0, 0, 0.0, [])
    else TallyScenario(ScenarioTallyOf(s[..|s| - 1]), s[|s| - 1])
  }

  /** An eligible applicant that was funded and asked for a positive amount: one with a ratio. */
  predicate IsRated(x: Applicant) { x.eligible && x.awarded != 0.0 && x.requested > 0.0 }

  /** The award over the request (only taken for a positive request; 0 otherwise). */
  function Ratio(x: Applicant): real {
    if x.requested > 0.0 then x.awarded / x.requested else 0.0
  }

  /** The award-to-request ratio of each applicant of `u`, in order. */
  function Ratios(u: seq<Applicant>): (r: seq<real>)
    ensures |r| == |u|
  {
    if u == [] then [] else Ratios(u[..|u| - 1]) + [Ratio(u[|u| - 1])]
  }

  lemma RatiosAt(u: seq<Applicant>)
    ensures forall k :: 0 <= k < |u| ==> Ratios(u)[k] == Ratio(u[k])
  {
    if u != [] {
      RatiosAt(u[..|u| - 1]);
    }
  }

  /**
    The scenario loop counts what the summary's applicant loop counts, and its ratios are those of
    the rated applicants, in array order.
   */
  lemma {:induction false} ScenarioTallySpec(s: seq<Applicant>)
    ensures var t := ScenarioTallyOf(s);
      var u := ApplicantsTally(s);
      && t.eligibleCount == u.eligibleCount
      && t.unfundedCount == u.unfundedCount
      && t.fullyFunded == u.fullyFunded
      && t.partiallyFunded == u.partiallyFunded
      && t.eligibleRequested == u.eligibleRequested
      && t.rates == Ratios(Filter(s, IsRated))
    decreases |s|
  {
    if s != [] {
      var init, x := s[..|s| - 1], s[|s| - 1];
      ScenarioTallySpec(init);
      ScenarioStep(ScenarioTallyOf(init), ApplicantsTally(init), x);
      var f := Filter(init, IsRated);
      if IsRated(x) {
        assert Filter(s, IsRated) == f + [x];
        assert (f + [x])[..|f|] == f;
        assert Ratios(f + [x]) == Ratios(f) + [Ratio(x)];
      } else {
        assert Filter(s, IsRated) == f;
      }
    }
  }

  /** The scenario tally and the summary's applicant tally agree on the counts they share. */
  predicate SameCounts(t: ScenarioTally, u: ApplicantTally) {
    && t.eligibleCount == u.eligibleCount
    && t.unfundedCount == u.unfundedCount
    && t.fullyFunded == u.fullyFunded
    && t.partiallyFunded == u.partiallyFunded
    && t.eligibleRequested == u.eligibleRequested
  }

  /** One applicant keeps the two tallies in step, and adds its ratio exactly when it is rated. */
  lemma ScenarioStep(t: ScenarioTally, u: ApplicantTally, x: Applicant)
    requires SameCounts(t, u)
    ensures SameCounts(TallyScenario(t, x), TallyApplicant(u, x))
    ensures TallyScenario(t, x).rates == t.rates + (if IsRated(x) then [Ratio(x)] else [])
  {
  }

  /**
    The figures of a scenario: the amount spent is what the listed applicants hold; the averages
    and rates are 0 when their denominator is 0; the gap is never negative.
   */
  function ScenarioOf(s: seq<Applicant>, budget: real, idxs: seq<nat>): ScenarioResult
    requires InRange(idxs, |s|)
  {
    var t := ScenarioTallyOf(s);
    var used := SumAwarded(s, idxs);
    ScenarioResult(
      budget := budget,
      budgetUsed := used,
      budgetLeft := budget - used,
      budgetRequiredFull := t.eligibleRequested,
      awardedCount := |idxs|,
      eligibleCount := t.eligibleCount,
      eligibleUnfundedCount := t.unfundedCount,
      fullyFundedCount := t.fullyFunded,
      partiallyFundedCount := t.partiallyFunded,
      coverageRate := if t.eligibleRequested > 0.0 then used / t.eligibleRequested else 0.0,
      fullFundingRate := if t.eligibleCount > 0 then t.fullyFunded as real / t.eligibleCount as real else 0.0,
      fundingGapTotal := AtLeastZero(t.eligibleRequested - used),
      averageAward := if |idxs| > 0 then used / |idxs| as real else 0.0,
      awardToRequestAvg := AverageFloat(t.rates))
  }

  /** Summarises one scenario run: the applicant loop, the amount spent, then the derived figures. */
  method SummarizeScenario(a: array<Applicant>, awarded: seq<nat>, budget: real) returns (r: ScenarioResult)
    requires InRange(awarded, a.Length)
    ensures r == ScenarioOf(a[..], budget, awarded)
  {
    var eligibleCount: nat, unfundedCount: nat := 0, 0;
    var fullyFundedCount: nat, partiallyFundedCount: nat := 0, 0;
    var eligibleRequestedTotal := 0.0;
    var awardRates: seq<real> := [];
    for i := 0 to a.Length
      invariant ScenarioTallyOf(a[..i]) == ScenarioTally(eligibleCount, unfundedCount, fullyFundedCount,
        partiallyFundedCount, eligibleRequestedTotal, awardRates)
    {
      assert a[..i + 1][..i] == a[..i];
      var item := a[i];
      if !item.eligible {
        continue;
      }
      eligibleCount := eligibleCount + 1;
      eligibleRequestedTotal := eligibleRequestedTotal + item.requested;
      if item.awarded == 0.0 {
        unfundedCount := unfundedCount + 1;
        continue;
      }
      if item.awarded >= item.requested {
        fullyFundedCount := fullyFundedCount + 1;
      } else {
        partiallyFundedCount := partiallyFundedCount + 1;
      }
      if item.requested > 0.0 {
        awardRates := awardRates + [item.awarded / item.requested];
      }
    }
    assert a[..a.Length] == a[..];
    var budgetUsed := TotalAwarded(a, awarded);
    var averageAward := 0.0;
    if |awarded| > 0 {
      averageAward := budgetUsed / |awarded| as real;
    }
    var coverageRate := 0.0;
    if eligibleRequestedTotal > 0.0 {
      coverageRate := budgetUsed / eligibleRequestedTotal;
    }
    var fundingGapTotal := eligibleRequestedTotal - budgetUsed;
    if fundingGapTotal < 0.0 {
      fundingGapTotal := 0.0;
    }
    var fullFundingRate := 0.0;
    if eligibleCount > 0 {
      fullFundingRate := fullyFundedCount as real / eligibleCount as real;
    }
    r := ScenarioResult(budget, budgetUsed, budget - budgetUsed, eligibleRequestedTotal, |awarded|,
      eligibleCount, unfundedCount, fullyFundedCount, partiallyFundedCount, coverageRate, fullFundingRate,
      fundingGapTotal, averageAward, AverageFloat(awardRates));
  }

  /**
    A scenario and the summary of the same array, budget and funded list agree on every figure they
    share except the award-to-request average, which the scenario takes over the applicant array and
    the summary over the funded list.
   */
  lemma ScenarioMatchesSummary(s: seq<Applicant>, budget: real, idxs: seq<nat>)
    requires InRange(idxs, |s|)
    ensures var r := ScenarioOf(s, budget, idxs);
      var q := SummaryOf(s, budget, idxs);
      && r.budget == q.budget && r.budgetUsed == q.budgetUsed && r.budgetLeft == q.budgetLeft
      && r.budgetRequiredFull == q.budgetRequiredFull && r.awardedCount == q.awardedCount
      && r.eligibleCount == q.eligibleCount && r.eligibleUnfundedCount == q.eligibleUnfundedCount
      && r.fullyFundedCount == q.fullyFundedCount && r.partiallyFundedCount == q.partiallyFundedCount
      && r.coverageRate == q.coverageRate && r.fullFundingRate == q.fullFundingRate
      && r.fundingGapTotal == q.fundingGapTotal && r.averageAward == q.averageAward
  {
    ScenarioTallySpec(s);
    AwardsTallySums(s, idxs, |idxs|);
    assert idxs[..|idxs|] == idxs;
  }

  /**
    The scenario's award-to-request average is the mean ratio of the rated applicants; it lies in
    [0, 1] when every rated applicant was awarded at most what it asked for.
   */
  lemma ScenarioAwardToRequest(s: seq<Applicant>, budget: real, idxs: seq<nat>)
    requires InRange(idxs, |s|)
    requires forall j :: 0 <= j < |s| && IsRated(s[j]) ==> 0.0 <= s[j].awarded <= s[j].requested
    ensures var r := ScenarioOf(s, budget, idxs);
      && r.awardToRequestAvg == AverageFloat(Ratios(Filter(s, IsRated)))
      && 0.0 <= r.awardToRequestAvg <= 1.0
  {
    ScenarioTallySpec(s);
    var u := Filter(s, IsRated);
    var v := Ratios(u);
    if v != [] {
      RatiosAt(u);
      forall k | 0 <= k < |v| ensures 0.0 <= v[k] <= 1.0 {
        var j := RatedOrigin(s, k);
        DivideAtMostOne(s[j].awarded, s[j].requested);
      }
      AverageWithin(v, 0.0, 1.0);
    }
  }

  /** Where the `k`-th rated applicant sits in the array. */
  lemma {:induction false} RatedOrigin(s: seq<Applicant>, k: nat) returns (j: nat)
    requires k < |Filter(s, IsRated)|
    ensures j < |s| && s[j] == Filter(s, IsRated)[k] && IsRated(s[j])
    decreases |s|
  {
    var init := s[..|s| - 1];
    FilterSnoc(init, s[|s| - 1], IsRated);
    assert s == init + [s[|s| - 1]];
    if k < |Filter(init, IsRated)| {
      j := RatedOrigin(init, k);
    } else {
      j := |s| - 1;
    }
  }

  // ---------------------------------------------------------------------------------------------
  // Scenario runs.

  /** One scenario: the cleared copies allocated with `budget`, then summarised. */
  function ScenarioRun(s: seq<Applicant>, budget: real, lim: Limits, reserveHigh: real, reserveMedium: real,
                       reserveLow: real): ScenarioResult
  {
    var l := Allocate(Cleared(s), budget, lim, reserveHigh, reserveMedium, reserveLow);
    AllocateFunded(Cleared(s), budget, lim, reserveHigh, reserveMedium, reserveLow);
    ScenarioOf(l.apps, budget, l.awarded)
  }

  /**
    One result per budget, in the order of the budgets, each computed on fresh copies; the applicant
    array itself is not written (the method may modify nothing).
   */
  method BuildScenarioResults(a: array<Applicant>, budgets: seq<real>, lim: Limits, reserveHigh: real,
                              reserveMedium: real, reserveLow: real) returns (results: seq<ScenarioResult>)
    ensures |results| == |budgets|
    ensures forall k :: 0 <= k < |budgets| ==>
      results[k] == ScenarioRun(a[..], budgets[k], lim, reserveHigh, reserveMedium, reserveLow)
  {
    results := [];
    for k := 0 to |budgets|
      invariant |results| == k
      invariant forall m :: 0 <= m < k ==>
        results[m] == ScenarioRun(a[..], budgets[m], lim, reserveHigh, reserveMedium, reserveLow)
    {
      var clone := CloneApplicants(a);
      var awarded := AllocateBudget(clone, budgets[k], lim, reserveHigh, reserveMedium, reserveLow);
      AllocateFunded(Cleared(a[..]), budgets[k], lim, reserveHigh, reserveMedium, reserveLow);
      var result := SummarizeScenario(clone, awarded, budgets[k]);
      results := results + [result];
    }
  }

  /**
    The scenarios run on the array the main allocation left behind. When the main run started from
    zero awards, a scenario with the main budget repeats it: clearing the awards and allocating
    again funds the same applicants and leaves the same array, and its figures are the scenario
    figures of the main run, which agree with the main summary on every figure
    ScenarioMatchesSummary lists.
   */
  lemma ScenarioRepeatsMainRun(s: seq<Applicant>, budget: real, lim: Limits, reserveHigh: real,
                               reserveMedium: real, reserveLow: real)
    requires forall j :: 0 <= j < |s| ==> s[j].awarded == 0.0
    ensures var m := Allocate(s, budget, lim, reserveHigh, reserveMedium, reserveLow);
      InRange(m.awarded, |m.apps|)
      && Allocate(Cleared(m.apps), budget, lim, reserveHigh, reserveMedium, reserveLow) == m
      && ScenarioRun(m.apps, budget, lim, reserveHigh, reserveMedium, reserveLow) == ScenarioOf(m.apps, budget, m.awarded)
  {
    var m := Allocate(s, budget, lim, reserveHigh, reserveMedium, reserveLow);
    AllocateFunded(s, budget, lim, reserveHigh, reserveMedium, reserveLow);
    ClearedUnawarded(s);
    ClearedForgetsAwards(s, m.apps);
  }
}
