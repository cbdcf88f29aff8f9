/**
  The two accumulating loops of the allocation summary: one over every applicant (eligibility,
  funding status, per-tier coverage, unfunded amounts by tier, ineligibility reasons) and one over
  the funded list (amount spent, award amounts, award-to-request rates, smallest and largest award,
  spending by tier). Each loop is a method proved against a fold, and each fold is tied to
  independent definitions by filtering.
 */
module Tally {
  import opened Applicants
  import opened Allocation
  import opened Stats

  /** Spending on one tier. */
  datatype NeedAgg = NeedAgg(awardedCount: nat, budgetUsed: real)

  /** Coverage of one tier; the rate and the share fields are filled in after the loop. */
  datatype NeedCoverage = NeedCoverage(
    eligibleCount: nat,
    awardedCount: nat,
    unfundedCount: nat,
    requestedTotal: real,
    awardedTotal: real,
    coverageRate: real,
    requestedShare: real,
    awardedShare: real,
    shareDelta: real)

  /** The eligible but unfunded applicants of one tier. */
  datatype NeedUnfunded = NeedUnfunded(count: nat, requested: real)

  const NoAgg: NeedAgg := NeedAgg(0, 0.0)
  const NoCoverage: NeedCoverage := NeedCoverage(0, 0, 0, 0.0, 0.0, 0.0, 0.0, 0.0, 0.0)
  const NoUnfunded: NeedUnfunded := NeedUnfunded(0, 0.0)

  /** The three tiers every per-tier table starts with. */
  function PerTier<T>(zero: T): map<string, T> {
    map[Low := zero, Medium := zero, High := zero]
  }

  /** A map entry, or the zero value when the key is absent, as a map read gives. */
  function Lookup<T>(m: map<string, T>, k: string, zero: T): T {
    if k in m then m[k] else zero
  }

  // ---------------------------------------------------------------------------------------------
  // Reference definitions by filtering.

  predicate IsEligible(x: Applicant) { x.eligible }
  predicate IsIneligible(x: Applicant) { !x.eligible }
  /** Eligible with a positive award: counted as awarded in its tier's coverage. */
  predicate IsAwarded(x: Applicant) { x.eligible && x.awarded > 0.0 }
  /** Eligible with an award of exactly 0. */
  predicate IsUnfunded(x: Applicant) { x.eligible && x.awarded == 0.0 }
  predicate IsFullyFunded(x: Applicant) { x.eligible && x.awarded != 0.0 && x.awarded >= x.requested }
  predicate IsPartiallyFunded(x: Applicant) { x.eligible && x.awarded != 0.0 && x.awarded < x.requested }

  /** The applicants satisfying `p`, in order. */
  function Filter(s: seq<Applicant>, p: Applicant -> bool): (r: seq<Applicant>)
    ensures |r| <= |s|
  {
    if s == [] then [] else Filter(s[..|s| - 1], p) + (if p(s[|s| - 1]) then [s[|s| - 1]] else [])
  }

  /** The applicants of tier `level`, in order. */
  function InTier(s: seq<Applicant>, level: string): (r: seq<Applicant>)
    ensures |r| <= |s|
  {
    if s == [] then [] else InTier(s[..|s| - 1], level) + (if s[|s| - 1].needLevel == level then [s[|s| - 1]] else [])
  }

  function RequestedTotal(s: seq<Applicant>): real {
    if s == [] then 0.0 else RequestedTotal(s[..|s| - 1]) + s[|s| - 1].requested
  }

  function AwardedTotal(s: seq<Applicant>): real {
    if s == [] then 0.0 else AwardedTotal(s[..|s| - 1]) + s[|s| - 1].awarded
  }

  /** The number of ineligible applicants whose recorded reason is exactly `msg`. */
  function ReasonCount(s: seq<Applicant>, msg: string): nat {
    if s == [] then 0
    else ReasonCount(s[..|s| - 1], msg) + (if !s[|s| - 1].eligible && s[|s| - 1].eligibilityMsg == msg then 1 else 0)
  }

  /** The listed indices whose applicant is in tier `level`, in list order. */
  function ListedInTier(s: seq<Applicant>, idxs: seq<nat>, level: string): (r: seq<nat>)
    requires InRange(idxs, |s|)
    ensures InRange(r, |s|) && |r| <= |idxs|
  {
    if idxs == [] then []
    else
      var last := idxs[|idxs| - 1];
      ListedInTier(s, idxs[..|idxs| - 1], level) + (if s[last].needLevel == level then [last] else [])
  }

  lemma FilterSnoc(s: seq<Applicant>, x: Applicant, p: Applicant -> bool)
    ensures p(x) ==> Filter(s + [x], p) == Filter(s, p) + [x]
    ensures !p(x) ==> Filter(s + [x], p) == Filter(s, p)
  {
    assert (s + [x])[..|s|] == s;
    assert Filter(s, p) + [] == Filter(s, p);
  }

  lemma InTierSnoc(s: seq<Applicant>, x: Applicant, level: string)
    ensures x.needLevel == level ==> InTier(s + [x], level) == InTier(s, level) + [x]
    ensures x.needLevel != level ==> InTier(s + [x], level) == InTier(s, level)
  {
    assert (s + [x])[..|s|] == s;
    assert InTier(s, level) + [] == InTier(s, level);
  }

  /** Appending `x` to the input adds `x` to the tier list of the filtered applicants exactly when it passes both. */
  lemma TierFilterSnoc(s: seq<Applicant>, x: Applicant, p: Applicant -> bool, level: string)
    ensures p(x) && x.needLevel == level ==> InTier(Filter(s + [x], p), level) == InTier(Filter(s, p), level) + [x]
    ensures !(p(x) && x.needLevel == level) ==> InTier(Filter(s + [x], p), level) == InTier(Filter(s, p), level)
  {
    FilterSnoc(s, x, p);
    if p(x) {
      InTierSnoc(Filter(s, p), x, level);
    }
  }

  lemma TotalsSnoc(s: seq<Applicant>, x: Applicant)
    ensures RequestedTotal(s + [x]) == RequestedTotal(s) + x.requested
    ensures AwardedTotal(s + [x]) == AwardedTotal(s) + x.awarded
  {
    assert (s + [x])[..|s|] == s;
  }

  lemma ReasonCountSnoc(s: seq<Applicant>, x: Applicant, msg: string)
    ensures ReasonCount(s + [x], msg) == ReasonCount(s, msg) + (if !x.eligible && x.eligibilityMsg == msg then 1 else 0)
  {
    assert (s + [x])[..|s|] == s;
  }

  // ---------------------------------------------------------------------------------------------
  // The loop over every applicant.

  datatype ApplicantTally = ApplicantTally(
    ineligibleCount: nat,
    reasons: map<string, nat>,
    eligibleCount: nat,
    eligibleRequested: real,
    unfundedCount: nat,
    unfundedAmount: real,
    fullyFunded: nat,
    partiallyFunded: nat,
    coverage: map<string, NeedCoverage>,
    unfundedByNeed: map<string, NeedUnfunded>)

  const NoApplicants: ApplicantTally :=
    ApplicantTally(0, map[], 0, 0.0, 0, 0.0, 0, 0, PerTier(NoCoverage), PerTier(NoUnfunded))

  /**
    One applicant: an ineligible one is counted and its non-empty reason tallied; an eligible one
    adds its request to the totals and to its tier, its award to its tier when positive, and then
    counts as unfunded (award exactly 0), fully funded (award at least the request) or partially
    funded.
   */
  function TallyApplicant(t: ApplicantTally, x: Applicant): ApplicantTally {
    if !x.eligible then
      var reasons := if x.eligibilityMsg != "" then t.reasons[x.eligibilityMsg := Lookup(t.reasons, x.eligibilityMsg, 0) + 1] else t.reasons;
      t.(ineligibleCount := t.ineligibleCount + 1, reasons := reasons)
    else
      var level := x.needLevel;
      var t1 := t.(eligibleCount := t.eligibleCount + 1, eligibleRequested := t.eligibleRequested + x.requested,
                   coverage := t.coverage[level := CoverageAdd(Lookup(t.coverage, level, NoCoverage), x)]);
      if x.awarded == 0.0 then
        t1.(unfundedCount := t.unfundedCount + 1, unfundedAmount := t.unfundedAmount + x.requested,
            unfundedByNeed := t.unfundedByNeed[level := UnfundedAdd(Lookup(t.unfundedByNeed, level, NoUnfunded), x)])
      else if x.awarded >= x.requested then
        t1.(fullyFunded := t.fullyFunded + 1)
      else
        t1.(partiallyFunded := t.partiallyFunded + 1)
  }

  /** An eligible applicant added to its tier's coverage entry. */
  function CoverageAdd(c: NeedCoverage, x: Applicant): NeedCoverage {
    var c1 := c.(eligibleCount := c.eligibleCount + 1, requestedTotal := c.requestedTotal + x.requested);
    var c2 := if x.awarded > 0.0 then c1.(awardedCount := c1.awardedCount + 1, awardedTotal := c1.awardedTotal + x.awarded) else c1;
    if x.awarded == 0.0 then c2.(unfundedCount := c2.unfundedCount + 1) else c2
  }

  /** An eligible unfunded applicant added to its tier's unfunded entry. */
  function UnfundedAdd(u: NeedUnfunded, x: Applicant): NeedUnfunded {
    NeedUnfunded(u.count + 1, u.requested + x.requested)
  }

  /** The tally after the loop has seen all of `s`. */
  function ApplicantsTally(s: seq<Applicant>): ApplicantTally {
    if s == [] then NoApplicants else TallyApplicant(ApplicantsTally(s[..|s| - 1]), s[|s| - 1])
  }

  /** What the loop gathers for tier `level`, by filtering. */
  function CoverageFrom(s: seq<Applicant>, level: string): NeedCoverage {
    var e := InTier(Filter(s, IsEligible), level);
    var w := InTier(Filter(s, IsAwarded), level);
    var u := InTier(Filter(s, IsUnfunded), level);
    NeedCoverage(|e|, |w|, |u|, RequestedTotal(e), AwardedTotal(w), 0.0, 0.0, 0.0, 0.0)
  }

  function UnfundedFrom(s: seq<Applicant>, level: string): NeedUnfunded {
    var u := InTier(Filter(s, IsUnfunded), level);
    NeedUnfunded(|u|, RequestedTotal(u))
  }

  predicate CountsMatch(t: ApplicantTally, s: seq<Applicant>) {
    t.ineligibleCount == |Filter(s, IsIneligible)|
    && t.eligibleCount == |Filter(s, IsEligible)|
    && t.eligibleRequested == RequestedTotal(Filter(s, IsEligible))
    && t.unfundedCount == |Filter(s, IsUnfunded)|
    && t.unfundedAmount == RequestedTotal(Filter(s, IsUnfunded))
    && t.fullyFunded == |Filter(s, IsFullyFunded)|
    && t.partiallyFunded == |Filter(s, IsPartiallyFunded)|
    && t.eligibleCount + t.ineligibleCount == |s|
    && t.unfundedCount + t.fullyFunded + t.partiallyFunded == t.eligibleCount
  }

  ghost predicate ReasonsMatch(t: ApplicantTally, s: seq<Applicant>) {
    && (forall m :: m in t.reasons <==> m != "" && ReasonCount(s, m) > 0)
    && (forall m :: m != "" ==> Lookup(t.reasons, m, 0) == ReasonCount(s, m))
  }

  ghost predicate TiersMatch(t: ApplicantTally, s: seq<Applicant>) {
    && (forall k :: k in t.coverage <==> IsTier(k) || InTier(Filter(s, IsEligible), k) != [])
    && (forall k :: Lookup(t.coverage, k, NoCoverage) == CoverageFrom(s, k))
    && (forall k :: k in t.unfundedByNeed <==> IsTier(k) || InTier(Filter(s, IsUnfunded), k) != [])
    && (forall k :: Lookup(t.unfundedByNeed, k, NoUnfunded) == UnfundedFrom(s, k))
  }

  lemma TallyStepCounts(t: ApplicantTally, s: seq<Applicant>, x: Applicant)
    requires CountsMatch(t, s)
    ensures CountsMatch(TallyApplicant(t, x), s + [x])
  {
    FilterSnoc(s, x, IsIneligible);
    FilterSnoc(s, x, IsEligible);
    FilterSnoc(s, x, IsUnfunded);
    FilterSnoc(s, x, IsFullyFunded);
    FilterSnoc(s, x, IsPartiallyFunded);
    TotalsSnoc(Filter(s, IsEligible), x);
    TotalsSnoc(Filter(s, IsUnfunded), x);
  }

  lemma TallyStepReasons(t: ApplicantTally, s: seq<Applicant>, x: Applicant)
    requires ReasonsMatch(t, s)
    ensures ReasonsMatch(TallyApplicant(t, x), s + [x])
  {
    var r := TallyApplicant(t, x);
    forall m ensures (m in r.reasons <==> m != "" && ReasonCount(s + [x], m) > 0)
      && (m != "" ==> Lookup(r.reasons, m, 0) == ReasonCount(s + [x], m))
    {
      ReasonCountSnoc(s, x, m);
    }
  }

  /** How one applicant changes the two tier tables. */
  lemma TallyApplicantTiers(t: ApplicantTally, x: Applicant)
    ensures TallyApplicant(t, x).coverage ==
      if x.eligible then t.coverage[x.needLevel := CoverageAdd(Lookup(t.coverage, x.needLevel, NoCoverage), x)] else t.coverage
    ensures TallyApplicant(t, x).unfundedByNeed ==
      if IsUnfunded(x) then t.unfundedByNeed[x.needLevel := UnfundedAdd(Lookup(t.unfundedByNeed, x.needLevel, NoUnfunded), x)] else t.unfundedByNeed
  {
  }

  lemma CoverageStep(before: map<string, NeedCoverage>, after: map<string, NeedCoverage>, s: seq<Applicant>, x: Applicant, k: string)
    requires after == if x.eligible then before[x.needLevel := CoverageAdd(Lookup(before, x.needLevel, NoCoverage), x)] else before
    requires Lookup(before, k, NoCoverage) == CoverageFrom(s, k)
    requires k in before <==> IsTier(k) || InTier(Filter(s, IsEligible), k) != []
    ensures Lookup(after, k, NoCoverage) == CoverageFrom(s + [x], k)
    ensures k in after <==> IsTier(k) || InTier(Filter(s + [x], IsEligible), k) != []
  {
    TierFilterSnoc(s, x, IsEligible, k);
    TierFilterSnoc(s, x, IsAwarded, k);
    TierFilterSnoc(s, x, IsUnfunded, k);
    if !x.eligible || x.needLevel != k {
      assert Lookup(after, k, NoCoverage) == Lookup(before, k, NoCoverage);
    } else {
      CoverageGrows(s, x);
    }
  }

  /** An eligible applicant added to the input changes its own tier's coverage as `CoverageAdd` says. */
  lemma CoverageGrows(s: seq<Applicant>, x: Applicant)
    requires x.eligible
    ensures CoverageFrom(s + [x], x.needLevel) == CoverageAdd(CoverageFrom(s, x.needLevel), x)
  {
    var k := x.needLevel;
    var e0, w0, u0 := InTier(Filter(s, IsEligible), k), InTier(Filter(s, IsAwarded), k), InTier(Filter(s, IsUnfunded), k);
    var e1, w1, u1 := InTier(Filter(s + [x], IsEligible), k), InTier(Filter(s + [x], IsAwarded), k), InTier(Filter(s + [x], IsUnfunded), k);
    assert e1 == e0 + [x] by {
      TierFilterSnoc(s, x, IsEligible, k);
    }
    assert w1 == if x.awarded > 0.0 then w0 + [x] else w0 by {
      TierFilterSnoc(s, x, IsAwarded, k);
    }
    assert u1 == if x.awarded == 0.0 then u0 + [x] else u0 by {
      TierFilterSnoc(s, x, IsUnfunded, k);
    }
    CoverageSnoc(e0, w0, u0, e1, w1, u1, x);
  }

  /** The coverage entry built from the three lists, before and after `x` joins them as `CoverageAdd` says. */
  lemma CoverageSnoc(e0: seq<Applicant>, w0: seq<Applicant>, u0: seq<Applicant>,
                     e1: seq<Applicant>, w1: seq<Applicant>, u1: seq<Applicant>, x: Applicant)
    requires e1 == e0 + [x]
    requires w1 == if x.awarded > 0.0 then w0 + [x] else w0
    requires u1 == if x.awarded == 0.0 then u0 + [x] else u0
    ensures NeedCoverage(|e1|, |w1|, |u1|, RequestedTotal(e1), AwardedTotal(w1), 0.0, 0.0, 0.0, 0.0)
      == CoverageAdd(NeedCoverage(|e0|, |w0|, |u0|, RequestedTotal(e0), AwardedTotal(w0), 0.0, 0.0, 0.0, 0.0), x)
  {
    TotalsSnoc(e0, x);
    TotalsSnoc(w0, x);
    CoverageAddCounts(|e0|, |w0|, |u0|, RequestedTotal(e0), AwardedTotal(w0),
      |e1|, |w1|, |u1|, RequestedTotal(e1), AwardedTotal(w1), x);
  }

  lemma CoverageAddCounts(e0: nat, w0: nat, u0: nat, req0: real, paid0: real,
                          e1: nat, w1: nat, u1: nat, req1: real, paid1: real, x: Applicant)
    requires e1 == e0 + 1 && req1 == req0 + x.requested
    requires w1 == (if x.awarded > 0.0 then w0 + 1 else w0)
    requires paid1 == (if x.awarded > 0.0 then paid0 + x.awarded else paid0)
    requires u1 == (if x.awarded == 0.0 then u0 + 1 else u0)
    ensures NeedCoverage(e1, w1, u1, req1, paid1, 0.0, 0.0, 0.0, 0.0)
      == CoverageAdd(NeedCoverage(e0, w0, u0, req0, paid0, 0.0, 0.0, 0.0, 0.0), x)
  {
  }

  lemma UnfundedStep(before: map<string, NeedUnfunded>, after: map<string, NeedUnfunded>, s: seq<Applicant>, x: Applicant, k: string)
    requires after == if IsUnfunded(x) then before[x.needLevel := UnfundedAdd(Lookup(before, x.needLevel, NoUnfunded), x)] else before
    requires Lookup(before, k, NoUnfunded) == UnfundedFrom(s, k)
    requires k in before <==> IsTier(k) || InTier(Filter(s, IsUnfunded), k) != []
    ensures Lookup(after, k, NoUnfunded) == UnfundedFrom(s + [x], k)
    ensures k in after <==> IsTier(k) || InTier(Filter(s + [x], IsUnfunded), k) != []
  {
    TierFilterSnoc(s, x, IsUnfunded, k);
    if !IsUnfunded(x) || x.needLevel != k {
      assert Lookup(after, k, NoUnfunded) == Lookup(before, k, NoUnfunded);
    } else {
      UnfundedGrows(s, x);
    }
  }

  lemma UnfundedGrows(s: seq<Applicant>, x: Applicant)
    requires IsUnfunded(x)
    ensures UnfundedFrom(s + [x], x.needLevel) == UnfundedAdd(UnfundedFrom(s, x.needLevel), x)
  {
    TierFilterSnoc(s, x, IsUnfunded, x.needLevel);
    TotalsSnoc(InTier(Filter(s, IsUnfunded), x.needLevel), x);
  }

  lemma TallyStepTiers(t: ApplicantTally, s: seq<Applicant>, x: Applicant)
    requires TiersMatch(t, s)
    ensures TiersMatch(TallyApplicant(t, x), s + [x])
  {
    var r := TallyApplicant(t, x);
    TallyApplicantTiers(t, x);
    forall k
      ensures Lookup(r.coverage, k, NoCoverage) == CoverageFrom(s + [x], k)
      ensures k in r.coverage <==> IsTier(k) || InTier(Filter(s + [x], IsEligible), k) != []
      ensures Lookup(r.unfundedByNeed, k, NoUnfunded) == UnfundedFrom(s + [x], k)
      ensures k in r.unfundedByNeed <==> IsTier(k) || InTier(Filter(s + [x], IsUnfunded), k) != []
    {
      CoverageStep(t.coverage, r.coverage, s, x, k);
      UnfundedStep(t.unfundedByNeed, r.unfundedByNeed, s, x, k);
    }
  }

  /**
    The applicant loop counts each applicant exactly once: eligible plus ineligible is every
    applicant, unfunded plus fully plus partially funded is every eligible one, and each counter,
    total, reason count and tier entry is what filtering the applicants gives; the tier tables hold
    the three tiers and every tier some eligible applicant names.
   */
  lemma {:induction false} ApplicantsTallySpec(s: seq<Applicant>)
    ensures CountsMatch(ApplicantsTally(s), s)
    ensures ReasonsMatch(ApplicantsTally(s), s)
    ensures TiersMatch(ApplicantsTally(s), s)
    decreases |s|
  {
    if s == [] {
      EmptyTallyMatches(ApplicantsTally(s), s);
    } else {
      var init := s[..|s| - 1];
      var x := s[|s| - 1];
      ApplicantsTallySpec(init);
      assert s == init + [x];
      TallyStepMatches(ApplicantsTally(init), ApplicantsTally(s), init, x, s);
    }
  }

  lemma EmptyTallyMatches(t: ApplicantTally, s: seq<Applicant>)
    requires t == NoApplicants && s == []
    ensures CountsMatch(t, s) && ReasonsMatch(t, s) && TiersMatch(t, s)
  {
    forall k ensures Lookup(t.coverage, k, NoCoverage) == CoverageFrom(s, k) {
    }
  }

  /** One iteration of the applicant loop keeps every counter, reason count and tier entry in step with the applicants seen. */
  lemma TallyStepMatches(t: ApplicantTally, r: ApplicantTally, s: seq<Applicant>, x: Applicant, s1: seq<Applicant>)
    requires CountsMatch(t, s) && ReasonsMatch(t, s) && TiersMatch(t, s)
    requires r == TallyApplicant(t, x) && s1 == s + [x]
    ensures CountsMatch(r, s1) && ReasonsMatch(r, s1) && TiersMatch(r, s1)
  {
    TallyStepCounts(t, s, x);
    TallyStepReasons(t, s, x);
    TallyStepTiers(t, s, x);
  }

  lemma ApplicantsTallyNext(s: seq<Applicant>, i: nat)
    requires i < |s|
    ensures ApplicantsTally(s[..i + 1]) == TallyApplicant(ApplicantsTally(s[..i]), s[i])
  {
    assert s[..i + 1][..i] == s[..i];
  }

  /** The loop over every applicant; the running totals are the fields of one tally. */
  method TallyApplicants(a: array<Applicant>) returns (t: ApplicantTally)
    ensures t == ApplicantsTally(a[..])
  {
    t := NoApplicants;
    ghost var s := a[..];
    for i := 0 to a.Length
      invariant ApplicantsTally(s[..i]) == t
    {
      ApplicantsTallyNext(s, i);
      t := CountApplicant(t, a[i]);
    }
    assert s[..a.Length] == s;
  }

  /**
    The loop body for one applicant, statement by statement, on the running totals `t0`; an
    ineligible applicant ends the iteration early, and so does an unfunded one.
   */
  method CountApplicant(t0: ApplicantTally, item: Applicant) returns (t: ApplicantTally)
    ensures t == TallyApplicant(t0, item)
  {
    t := t0;
    if !item.eligible {
      t := t.(ineligibleCount := t.ineligibleCount + 1);
      if item.eligibilityMsg != "" {
        t := t.(reasons := t.reasons[item.eligibilityMsg := Lookup(t.reasons, item.eligibilityMsg, 0) + 1]);
      }
      return;
    }
    t := t.(eligibleCount := t.eligibleCount + 1, eligibleRequested := t.eligibleRequested + item.requested);
    var c := Lookup(t.coverage, item.needLevel, NoCoverage);
    c := c.(eligibleCount := c.eligibleCount + 1, requestedTotal := c.requestedTotal + item.requested);
    if item.awarded > 0.0 {
      c := c.(awardedCount := c.awardedCount + 1, awardedTotal := c.awardedTotal + item.awarded);
    }
    if item.awarded == 0.0 {
      t := t.(unfundedCount := t.unfundedCount + 1, unfundedAmount := t.unfundedAmount + item.requested);
      var agg := Lookup(t.unfundedByNeed, item.needLevel, NoUnfunded);
      t := t.(unfundedByNeed := t.unfundedByNeed[item.needLevel := NeedUnfunded(agg.count + 1, agg.requested + item.requested)]);
      c := c.(unfundedCount := c.unfundedCount + 1);
      t := t.(coverage := t.coverage[item.needLevel := c]);
      return;
    }
    if item.awarded >= item.requested {
      t := t.(fullyFunded := t.fullyFunded + 1);
    } else {
      t := t.(partiallyFunded := t.partiallyFunded + 1);
    }
    t := t.(coverage := t.coverage[item.needLevel := c]);
  }

  // ---------------------------------------------------------------------------------------------
  // The loop over the funded list.

  datatype AwardTally = AwardTally(
    budgetUsed: real,
    amounts: seq<real>,
    rates: seq<real>,
    minAward: real,
    maxAward: real,
    byNeed: map<string, NeedAgg>)

  /** The award of the first funded applicant, 0 when none is funded: where the minimum and maximum start. */
  function FirstAward(s: seq<Applicant>, idxs: seq<nat>): real
    requires InRange(idxs, |s|)
  {
    if idxs == [] then 0.0 else s[idxs[0]].awarded
  }

  /** One funded applicant: its award is spent, recorded, compared and added to its tier. */
  function TallyAward(t: AwardTally, x: Applicant): AwardTally {
    var agg := Lookup(t.byNeed, x.needLevel, NoAgg);
    AwardTally(
      t.budgetUsed + x.awarded,
      t.amounts + [x.awarded],
      if x.requested > 0.0 then t.rates + [x.awarded / x.requested] else t.rates,
      if x.awarded < t.minAward then x.awarded else t.minAward,
      if x.awarded > t.maxAward then x.awarded else t.maxAward,
      t.byNeed[x.needLevel := NeedAgg(agg.awardedCount + 1, agg.budgetUsed + x.awarded)])
  }

  /** The tally after the loop has seen the first `n` funded applicants. */
  function AwardsTally(s: seq<Applicant>, idxs: seq<nat>, n: nat): AwardTally
    requires InRange(idxs, |s|) && n <= |idxs|
  {
    if n == 0 then AwardTally(0.0, [], [], FirstAward(s, idxs), FirstAward(s, idxs), PerTier(NoAgg))
    else TallyAward(AwardsTally(s, idxs, n - 1), s[idxs[n - 1]])
  }

  /**
    The spending and the amounts: the amount spent is what the array says the listed applicants
    were awarded, the amounts are those awards in list order, and they add up to the amount spent.
   */
  lemma AwardsTallySums(s: seq<Applicant>, idxs: seq<nat>, n: nat)
    requires InRange(idxs, |s|) && n <= |idxs|
    ensures var t := AwardsTally(s, idxs, n);
      t.budgetUsed == SumAwarded(s, idxs[..n])
      && |t.amounts| == n && (forall k :: 0 <= k < n ==> t.amounts[k] == s[idxs[k]].awarded)
      && Sum(t.amounts) == t.budgetUsed
  {
    AwardsTallyAmounts(s, idxs, n);
    AwardsTallySpent(s, idxs, n);
  }

  lemma {:induction false} AwardsTallyAmounts(s: seq<Applicant>, idxs: seq<nat>, n: nat)
    requires InRange(idxs, |s|) && n <= |idxs|
    ensures |AwardsTally(s, idxs, n).amounts| == n
    ensures forall k :: 0 <= k < n ==> AwardsTally(s, idxs, n).amounts[k] == s[idxs[k]].awarded
    decreases n
  {
    if n > 0 {
      AwardsTallyAmounts(s, idxs, n - 1);
      var t0 := AwardsTally(s, idxs, n - 1);
      AwardStepSums(t0, s[idxs[n - 1]]);
    }
  }

  lemma {:induction false} AwardsTallySpent(s: seq<Applicant>, idxs: seq<nat>, n: nat)
    requires InRange(idxs, |s|) && n <= |idxs|
    ensures AwardsTally(s, idxs, n).budgetUsed == SumAwarded(s, idxs[..n])
    ensures Sum(AwardsTally(s, idxs, n).amounts) == AwardsTally(s, idxs, n).budgetUsed
    decreases n
  {
    if n > 0 {
      AwardsTallySpent(s, idxs, n - 1);
      SumAwardedNext(s, idxs, n);
      AwardStepSums(AwardsTally(s, idxs, n - 1), s[idxs[n - 1]]);
    }
  }

  lemma SumAwardedNext(s: seq<Applicant>, idxs: seq<nat>, n: nat)
    requires InRange(idxs, |s|) && 0 < n <= |idxs|
    ensures SumAwarded(s, idxs[..n]) == SumAwarded(s, idxs[..n - 1]) + s[idxs[n - 1]].awarded
  {
    assert idxs[..n][..n - 1] == idxs[..n - 1];
  }

  lemma AwardStepSums(t0: AwardTally, x: Applicant)
    ensures TallyAward(t0, x).amounts == t0.amounts + [x.awarded]
    ensures Sum(TallyAward(t0, x).amounts) == Sum(t0.amounts) + x.awarded
  {
    assert (t0.amounts + [x.awarded])[..|t0.amounts|] == t0.amounts;
  }

  /** The smallest and the largest award: those of the amounts, 0 when nothing was funded. */
  lemma {:induction false} AwardsTallyExtremes(s: seq<Applicant>, idxs: seq<nat>, n: nat)
    requires InRange(idxs, |s|) && 0 < n <= |idxs|
    ensures var t := AwardsTally(s, idxs, n);
      t.amounts != [] && t.minAward == MinOf(t.amounts) && t.maxAward == MaxOf(t.amounts)
    decreases n
  {
    AwardsTallySums(s, idxs, n);
    var t := AwardsTally(s, idxs, n);
    if n > 1 {
      AwardsTallyExtremes(s, idxs, n - 1);
      AwardsTallySums(s, idxs, n - 1);
      assert t.amounts[..|t.amounts| - 1] == AwardsTally(s, idxs, n - 1).amounts;
    }
  }

  /**
    The award-to-request rates: at most one per funded applicant, and each in [0, 1] when every
    listed award lies between 0 and the request.
   */
  lemma {:induction false} AwardsTallyRates(s: seq<Applicant>, idxs: seq<nat>, n: nat)
    requires InRange(idxs, |s|) && n <= |idxs|
    ensures |AwardsTally(s, idxs, n).rates| <= n
    ensures (forall k :: 0 <= k < n ==> 0.0 <= s[idxs[k]].awarded <= s[idxs[k]].requested) ==>
      forall j :: 0 <= j < |AwardsTally(s, idxs, n).rates| ==> 0.0 <= AwardsTally(s, idxs, n).rates[j] <= 1.0
    decreases n
  {
    if n > 0 {
      AwardsTallyRates(s, idxs, n - 1);
      AwardStepRates(AwardsTally(s, idxs, n - 1), s[idxs[n - 1]]);
    }
  }

  predicate UnitRates(rates: seq<real>) {
    forall j :: 0 <= j < |rates| ==> 0.0 <= rates[j] <= 1.0
  }

  lemma AwardStepRates(t0: AwardTally, x: Applicant)
    ensures |TallyAward(t0, x).rates| <= |t0.rates| + 1
    ensures UnitRates(t0.rates) && 0.0 <= x.awarded <= x.requested ==> UnitRates(TallyAward(t0, x).rates)
  {
    if x.requested > 0.0 && 0.0 <= x.awarded <= x.requested {
      Arith.DivideAtMostOne(x.awarded, x.requested);
    }
  }

  lemma ListedInTierSnoc(s: seq<Applicant>, done: seq<nat>, i: nat, level: string)
    requires InRange(done, |s|) && i < |s|
    ensures InRange(done + [i], |s|)
    ensures s[i].needLevel == level ==> ListedInTier(s, done + [i], level) == ListedInTier(s, done, level) + [i]
    ensures s[i].needLevel != level ==> ListedInTier(s, done + [i], level) == ListedInTier(s, done, level)
  {
    assert (done + [i])[..|done|] == done;
    assert ListedInTier(s, done, level) + [] == ListedInTier(s, done, level);
  }

  lemma SumAwardedSnoc(s: seq<Applicant>, done: seq<nat>, i: nat)
    requires InRange(done, |s|) && i < |s|
    ensures InRange(done + [i], |s|)
    ensures SumAwarded(s, done + [i]) == SumAwarded(s, done) + s[i].awarded
  {
    assert (done + [i])[..|done|] == done;
  }

  /** What the funded list gives for tier `level`, by filtering. */
  function ByNeedFrom(s: seq<Applicant>, idxs: seq<nat>, level: string): NeedAgg
    requires InRange(idxs, |s|)
  {
    var listed := ListedInTier(s, idxs, level);
    NeedAgg(|listed|, SumAwarded(s, listed))
  }

  lemma ByNeedStep(before: map<string, NeedAgg>, after: map<string, NeedAgg>, s: seq<Applicant>, done: seq<nat>, i: nat, k: string)
    requires InRange(done, |s|) && i < |s|
    requires after == before[s[i].needLevel := NeedAgg(Lookup(before, s[i].needLevel, NoAgg).awardedCount + 1,
      Lookup(before, s[i].needLevel, NoAgg).budgetUsed + s[i].awarded)]
    requires Lookup(before, k, NoAgg) == ByNeedFrom(s, done, k)
    requires k in before <==> IsTier(k) || ListedInTier(s, done, k) != []
    ensures InRange(done + [i], |s|)
    ensures Lookup(after, k, NoAgg) == ByNeedFrom(s, done + [i], k)
    ensures k in after <==> IsTier(k) || ListedInTier(s, done + [i], k) != []
  {
    ListedInTierSnoc(s, done, i, k);
    if s[i].needLevel == k {
      ByNeedStepSame(before, after, s, done, i, k);
    } else {
      assert Lookup(after, k, NoAgg) == Lookup(before, k, NoAgg);
      assert k in after <==> k in before;
    }
  }

  lemma ByNeedStepSame(before: map<string, NeedAgg>, after: map<string, NeedAgg>, s: seq<Applicant>, done: seq<nat>, i: nat, k: string)
    requires InRange(done, |s|) && i < |s| && s[i].needLevel == k
    requires after == before[s[i].needLevel := NeedAgg(Lookup(before, s[i].needLevel, NoAgg).awardedCount + 1,
      Lookup(before, s[i].needLevel, NoAgg).budgetUsed + s[i].awarded)]
    requires Lookup(before, k, NoAgg) == ByNeedFrom(s, done, k)
    ensures InRange(done + [i], |s|)
    ensures Lookup(after, k, NoAgg) == ByNeedFrom(s, done + [i], k)
    ensures k in after && ListedInTier(s, done + [i], k) != []
  {
    var listed := ListedInTier(s, done, k);
    ListedInTierSnoc(s, done, i, k);
    SumAwardedSnoc(s, listed, i);
    assert ListedInTier(s, done + [i], k) == listed + [i];
  }

  /**
    The spending by tier: for every tier, the number of listed applicants of that tier and the sum
    of their awards; the table holds the three tiers and every tier a listed applicant names.
   */
  lemma {:induction false} AwardsTallyByNeed(s: seq<Applicant>, idxs: seq<nat>, n: nat)
    requires InRange(idxs, |s|) && n <= |idxs|
    ensures var t := AwardsTally(s, idxs, n);
      forall k :: k in t.byNeed <==> IsTier(k) || ListedInTier(s, idxs[..n], k) != []
    ensures var t := AwardsTally(s, idxs, n);
      forall k :: Lookup(t.byNeed, k, NoAgg) == ByNeedFrom(s, idxs[..n], k)
    decreases n
  {
    if n > 0 {
      AwardsTallyByNeed(s, idxs, n - 1);
      assert idxs[..n] == idxs[..n - 1] + [idxs[n - 1]];
      var before := AwardsTally(s, idxs, n - 1).byNeed;
      var after := AwardsTally(s, idxs, n).byNeed;
      forall k
        ensures Lookup(after, k, NoAgg) == ByNeedFrom(s, idxs[..n], k)
        ensures k in after <==> IsTier(k) || ListedInTier(s, idxs[..n], k) != []
      {
        ByNeedStep(before, after, s, idxs[..n - 1], idxs[n - 1], k);
      }
    }
  }

  /** The spending, in all and by tier, of the whole funded list. */
  lemma AwardsTallyTable(s: seq<Applicant>, idxs: seq<nat>)
    requires InRange(idxs, |s|)
    ensures var t := AwardsTally(s, idxs, |idxs|);
      forall k :: k in t.byNeed <==> IsTier(k) || ListedInTier(s, idxs, k) != []
    ensures var t := AwardsTally(s, idxs, |idxs|);
      forall k :: Lookup(t.byNeed, k, NoAgg) == ByNeedFrom(s, idxs, k)
    ensures AwardsTally(s, idxs, |idxs|).budgetUsed == SumAwarded(s, idxs)
  {
    AwardsTallyByNeed(s, idxs, |idxs|);
    AwardsTallySpent(s, idxs, |idxs|);
    assert idxs[..|idxs|] == idxs;
  }

  /** The loop over the funded list, with the smallest and largest award starting at the first one. */
  method TallyAwards(a: array<Applicant>, awarded: seq<nat>) returns (t: AwardTally)
    requires InRange(awarded, a.Length)
    ensures t == AwardsTally(a[..], awarded, |awarded|)
  {
    t := AwardTally(0.0, [], [], 0.0, 0.0, PerTier(NoAgg));
    if |awarded| > 0 {
      t := t.(minAward := a[awarded[0]].awarded, maxAward := a[awarded[0]].awarded);
    }
    ghost var s := a[..];
    for k := 0 to |awarded|
      invariant AwardsTally(s, awarded, k) == t
    {
      t := CountAward(t, a[awarded[k]]);
    }
  }

  /** The loop body for one funded applicant, statement by statement, on the running totals `t0`. */
  method CountAward(t0: AwardTally, item: Applicant) returns (t: AwardTally)
    ensures t == TallyAward(t0, item)
  {
    t := t0.(budgetUsed := t0.budgetUsed + item.awarded, amounts := t0.amounts + [item.awarded]);
    if item.requested > 0.0 {
      t := t.(rates := t.rates + [item.awarded / item.requested]);
    }
    if item.awarded < t.minAward {
      t := t.(minAward := item.awarded);
    }
    if item.awarded > t.maxAward {
      t := t.(maxAward := item.awarded);
    }
    var agg := Lookup(t.byNeed, item.needLevel, NoAgg);
    t := t.(byNeed := t.byNeed[item.needLevel := NeedAgg(agg.awardedCount + 1, agg.budgetUsed + item.awarded)]);
  }
}
