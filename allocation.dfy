/**
  The budget allocator: greedy passes over the ranked applicant array that write each funded
  applicant's award in place and return the funded applicants, in rank order, as indices into
  the array (an index stands for the pointer the allocator hands back).
 */
module Allocation {
  import opened Applicants
  import opened Award

  /** The per-award limits every pass applies. */
  datatype Limits = Limits(minAward: real, maxAward: real, roundTo: real, maxPercent: real)

  /** The amount `x` would receive in isolation. */
  function AwardFor(x: Applicant, lim: Limits): real {
    ComputeAward(x.requested, lim.minAward, lim.maxAward, lim.roundTo, lim.maxPercent)
  }

  /**
    Which applicants a pass may fund: a reserve pass only its tier, the residual pass any tier,
    and both only applicants not yet funded (`awarded` still 0).
   */
  datatype PassFilter = TierOnly(level: string) | AnyTier {
    predicate Allows(x: Applicant) {
      match this
      case TierOnly(level) => x.needLevel == level && x.awarded == 0.0
      case AnyTier => x.awarded == 0.0
    }
  }

  /** The applicants a pass considers: eligible, allowed by the filter and with a positive award. */
  predicate Qualifies(x: Applicant, lim: Limits, f: PassFilter) {
    x.eligible && f.Allows(x) && AwardFor(x, lim) > 0.0
  }

  /** Every index is a position of a sequence of length `n`. */
  predicate InRange(idxs: seq<nat>, n: nat) {
    forall k :: 0 <= k < |idxs| ==> idxs[k] < n
  }

  predicate Increasing(idxs: seq<nat>) {
    forall k, l :: 0 <= k < l < |idxs| ==> idxs[k] < idxs[l]
  }

  predicate Distinct(idxs: seq<nat>) {
    forall k, l :: 0 <= k < l < |idxs| ==> idxs[k] != idxs[l]
  }

  /** The sum of the awards of the listed applicants, read from `apps`. */
  function SumAwarded(apps: seq<Applicant>, idxs: seq<nat>): real
    requires InRange(idxs, |apps|)
  {
    if idxs == [] then 0.0
    else SumAwarded(apps, idxs[..|idxs| - 1]) + apps[idxs[|idxs| - 1]].awarded
  }

  lemma {:induction false} SumAwardedConcat(apps: seq<Applicant>, u: seq<nat>, v: seq<nat>)
    requires InRange(u, |apps|) && InRange(v, |apps|)
    ensures InRange(u + v, |apps|)
    ensures SumAwarded(apps, u + v) == SumAwarded(apps, u) + SumAwarded(apps, v)
    decreases |v|
  {
    if v == [] {
      assert u + v == u;
    } else {
      var init := v[..|v| - 1];
      SumAwardedConcat(apps, u, init);
      assert (u + v)[..|u + v| - 1] == u + init;
    }
  }

  /** The sum only reads the awards at the listed positions. */
  lemma {:induction false} SumAwardedFrame(apps: seq<Applicant>, other: seq<Applicant>, idxs: seq<nat>)
    requires InRange(idxs, |apps|) && InRange(idxs, |other|)
    requires forall k :: 0 <= k < |idxs| ==> apps[idxs[k]].awarded == other[idxs[k]].awarded
    ensures SumAwarded(apps, idxs) == SumAwarded(other, idxs)
    decreases |idxs|
  {
    if idxs != [] {
      SumAwardedFrame(apps, other, idxs[..|idxs| - 1]);
    }
  }

  /**
    Sums the awards of the listed applicants, as they stand in the array now.
   */
  method TotalAwarded(a: array<Applicant>, idxs: seq<nat>) returns (total: real)
    requires InRange(idxs, a.Length)
    ensures total == SumAwarded(a[..], idxs)
  {
    total := 0.0;
    for k := 0 to |idxs|
      invariant total == SumAwarded(a[..], idxs[..k])
    {
      assert idxs[..k + 1][..k] == idxs[..k];
      total := total + a[idxs[k]].awarded;
    }
    assert idxs[..|idxs|] == idxs;
  }

  /** The state of a pass: the array, the budget left, the funded indices, and whether it stopped. */
  datatype PassState = PassState(apps: seq<Applicant>, left: real, awarded: seq<nat>, stopped: bool)

  /**
    One iteration of the pass at position `i`: a stopped pass and an applicant that does not
    qualify are passed over; an award above what is left ends the pass when what is left is below
    the floor and is cut down to what is left otherwise; the pass stops once nothing is left.
   */
  function Step(st: PassState, i: nat, lim: Limits, f: PassFilter): (r: PassState)
    ensures |r.apps| == |st.apps|
  {
    if st.stopped || i >= |st.apps| || !Qualifies(st.apps[i], lim, f) then st
    else
      var x := st.apps[i];
      var award := AwardFor(x, lim);
      if award > st.left && st.left < lim.minAward then st.(stopped := true)
      else
        var paid := if award > st.left then st.left else award;
        PassState(st.apps[i := x.(awarded := paid)], st.left - paid, st.awarded + [i], st.left - paid <= 0.0)
  }

  /** The pass after its first `n` iterations. */
  function PassUpTo(s: seq<Applicant>, n: nat, budget: real, lim: Limits, f: PassFilter): (r: PassState)
    requires n <= |s|
    ensures |r.apps| == |s|
  {
    if n == 0 then PassState(s, budget, [], false)
    else Step(PassUpTo(s, n - 1, budget, lim, f), n - 1, lim, f)
  }

  /** A whole pass over `s` with `budget`. */
  function Pass(s: seq<Applicant>, budget: real, lim: Limits, f: PassFilter): PassState {
    PassUpTo(s, |s|, budget, lim, f)
  }

  /** Once a pass has stopped, the remaining iterations change nothing. */
  lemma {:induction false} StoppedStays(s: seq<Applicant>, n: nat, m: nat, budget: real, lim: Limits, f: PassFilter)
    requires n <= m <= |s|
    requires PassUpTo(s, n, budget, lim, f).stopped
    ensures PassUpTo(s, m, budget, lim, f) == PassUpTo(s, n, budget, lim, f)
    decreases m
  {
    if m > n {
      StoppedStays(s, n, m - 1, budget, lim, f);
    }
  }

  /**
    Funds, in array order, each applicant the filter allows, writing its award into the array,
    and returns the funded applicants in that order.
   */
  method AllocatePass(a: array<Applicant>, budget: real, lim: Limits, f: PassFilter) returns (awarded: seq<nat>)
    modifies a
    ensures a[..] == Pass(old(a[..]), budget, lim, f).apps
    ensures awarded == Pass(old(a[..]), budget, lim, f).awarded
  {
    ghost var s := a[..];
    var remaining := budget;
    awarded := [];
    for i := 0 to a.Length
      invariant PassUpTo(s, i, budget, lim, f) == PassState(a[..], remaining, awarded, false)
    {
      PassUpToNext(s, i + 1, budget, lim, f);
      var item := a[i];
      if !item.eligible || !f.Allows(item) {
        continue;
      }
      var award := ComputeAward(item.requested, lim.minAward, lim.maxAward, lim.roundTo, lim.maxPercent);
      if award <= 0.0 {
        continue;
      }
      if award > remaining {
        if remaining < lim.minAward {
          StoppedStays(s, i + 1, |s|, budget, lim, f);
          break;
        }
        award := remaining;
      }
      a[i] := item.(awarded := award);
      remaining := remaining - award;
      awarded := awarded + [i];
      if remaining <= 0.0 {
        StoppedStays(s, i + 1, |s|, budget, lim, f);
        break;
      }
    }
  }

  /**
    What a pass touches: it funds applicants in array order, only ones that qualify, and changes
    nothing but the award of the applicants it funds; everything else, including every applicant
    after the point where it stopped, is left as it was.
   */
  lemma {:induction false} PassShape(s: seq<Applicant>, n: nat, budget: real, lim: Limits, f: PassFilter)
    requires n <= |s|
    ensures Shaped(s, PassUpTo(s, n, budget, lim, f), n, lim, f)
    decreases n
  {
    if n > 0 {
      PassShape(s, n - 1, budget, lim, f);
      PassShapeNext(s, n, budget, lim, f);
    }
  }

  lemma PassShapeNext(s: seq<Applicant>, n: nat, budget: real, lim: Limits, f: PassFilter)
    requires 0 < n <= |s| && Shaped(s, PassUpTo(s, n - 1, budget, lim, f), n - 1, lim, f)
    ensures Shaped(s, PassUpTo(s, n, budget, lim, f), n, lim, f)
  {
    PassUpToNext(s, n, budget, lim, f);
    StepShape(s, PassUpTo(s, n - 1, budget, lim, f), PassUpTo(s, n, budget, lim, f), n - 1, lim, f);
  }

  lemma PassUpToNext(s: seq<Applicant>, n: nat, budget: real, lim: Limits, f: PassFilter)
    requires 0 < n <= |s|
    ensures PassUpTo(s, n, budget, lim, f) == Step(PassUpTo(s, n - 1, budget, lim, f), n - 1, lim, f)
  {
  }

  /** The shape of a pass after `i` iterations of it over `s`. */
  predicate Shaped(s: seq<Applicant>, r: PassState, i: nat, lim: Limits, f: PassFilter) {
    && |r.apps| == |s| && InRange(r.awarded, i) && Increasing(r.awarded)
    && (forall j :: 0 <= j < |s| && j !in r.awarded ==> r.apps[j] == s[j])
    && (forall k :: 0 <= k < |r.awarded| ==>
          r.awarded[k] < |s| && Qualifies(s[r.awarded[k]], lim, f)
          && r.apps[r.awarded[k]] == s[r.awarded[k]].(awarded := r.apps[r.awarded[k]].awarded))
  }

  lemma StepShape(s: seq<Applicant>, st: PassState, r: PassState, i: nat, lim: Limits, f: PassFilter)
    requires i < |s| && Shaped(s, st, i, lim, f) && r == Step(st, i, lim, f)
    ensures Shaped(s, r, i + 1, lim, f)
  {
    assert i !in st.awarded;
    if r.awarded == st.awarded {
      assert r.apps == st.apps;
      ShapeKeep(s, st, r, i, lim, f);
    } else {
      assert st.apps[i] == s[i];
      ShapeFund(s, st, r, i, r.apps[i].awarded, lim, f);
    }
  }

  /** An iteration that funds nobody keeps the shape. */
  lemma ShapeKeep(s: seq<Applicant>, st: PassState, r: PassState, i: nat, lim: Limits, f: PassFilter)
    requires Shaped(s, st, i, lim, f) && r.awarded == st.awarded && r.apps == st.apps
    ensures Shaped(s, r, i + 1, lim, f)
  {
  }

  /** An iteration that funds applicant `i`, which qualifies and was untouched, keeps the shape. */
  lemma ShapeFund(s: seq<Applicant>, st: PassState, r: PassState, i: nat, paid: real, lim: Limits, f: PassFilter)
    requires i < |s| && Shaped(s, st, i, lim, f) && Qualifies(s[i], lim, f)
    requires r.awarded == st.awarded + [i] && r.apps == st.apps[i := s[i].(awarded := paid)]
    ensures Shaped(s, r, i + 1, lim, f)
  {
    assert i !in st.awarded;
    forall k | 0 <= k < |r.awarded|
      ensures r.awarded[k] < |s| && Qualifies(s[r.awarded[k]], lim, f)
      ensures r.apps[r.awarded[k]] == s[r.awarded[k]].(awarded := r.apps[r.awarded[k]].awarded)
    {
      if k < |st.awarded| {
        assert r.awarded[k] == st.awarded[k] != i;
      }
    }
    forall j | 0 <= j < |s| && j !in r.awarded ensures r.apps[j] == s[j] {
      assert j !in st.awarded;
    }
    assert Increasing(r.awarded) && InRange(r.awarded, i + 1);
  }

  lemma PassInRange(s: seq<Applicant>, n: nat, budget: real, lim: Limits, f: PassFilter)
    requires n <= |s|
    ensures InRange(PassUpTo(s, n, budget, lim, f).awarded, n)
  {
    PassShape(s, n, budget, lim, f);
  }

  /** The budget bookkeeping a pass keeps after every iteration. */
  predicate BudgetKept(r: PassState, budget: real) {
    InRange(r.awarded, |r.apps|)
    && r.left == budget - SumAwarded(r.apps, r.awarded)
    && (0.0 <= budget ==> 0.0 <= r.left)
    && (!r.stopped && 0.0 < budget ==> 0.0 < r.left)
  }

  lemma StepBudget(st: PassState, r: PassState, i: nat, budget: real, lim: Limits, f: PassFilter)
    requires BudgetKept(st, budget) && InRange(st.awarded, i) && r == Step(st, i, lim, f)
    ensures BudgetKept(r, budget)
  {
    if r.awarded != st.awarded {
      assert i !in st.awarded;
      assert r.awarded == st.awarded + [i];
      SumAwardedFrame(st.apps, r.apps, st.awarded);
    }
  }

  /**
    What a pass spends: the budget left is the budget minus what it awarded, never negative when
    the budget is not, and positive while a pass with a positive budget is still running.
   */
  lemma {:induction false} PassBudget(s: seq<Applicant>, n: nat, budget: real, lim: Limits, f: PassFilter)
    requires n <= |s|
    ensures BudgetKept(PassUpTo(s, n, budget, lim, f), budget)
    decreases n
  {
    if n > 0 {
      PassBudget(s, n - 1, budget, lim, f);
      PassInRange(s, n - 1, budget, lim, f);
      PassUpToNext(s, n, budget, lim, f);
      StepBudget(PassUpTo(s, n - 1, budget, lim, f), PassUpTo(s, n, budget, lim, f), n - 1, budget, lim, f);
    }
  }

  /**
    One award of a pass: at most the applicant's computed award, positive when the budget or the
    floor is, and short of the computed award only when it is the last one, equal to what was
    left (so at least the floor), leaving nothing and ending the pass.
   */
  predicate GrantOk(s: seq<Applicant>, r: PassState, k: nat, budget: real, lim: Limits)
    requires k < |r.awarded| && r.awarded[k] < |s| && |r.apps| == |s|
  {
    var paid := r.apps[r.awarded[k]].awarded;
    var full := AwardFor(s[r.awarded[k]], lim);
    paid <= full
    && (0.0 < budget || 0.0 < lim.minAward ==> 0.0 < paid)
    && (paid < full ==> k == |r.awarded| - 1 && r.left == 0.0 && r.stopped && lim.minAward <= paid)
  }

  predicate GrantsOk(s: seq<Applicant>, r: PassState, budget: real, lim: Limits) {
    |r.apps| == |s| && InRange(r.awarded, |s|)
    && forall k :: 0 <= k < |r.awarded| ==> GrantOk(s, r, k, budget, lim)
  }

  lemma StepGrants(s: seq<Applicant>, st: PassState, r: PassState, i: nat, budget: real, lim: Limits, f: PassFilter)
    requires GrantsOk(s, st, budget, lim) && BudgetKept(st, budget) && InRange(st.awarded, i)
    requires i < |s| && st.apps[i] == s[i] && r == Step(st, i, lim, f)
    ensures GrantsOk(s, r, budget, lim)
  {
    if r.awarded != st.awarded {
      var x := st.apps[i];
      var full := AwardFor(x, lim);
      var paid := if full > st.left then st.left else full;
      assert !st.stopped && Qualifies(x, lim, f);
      assert r == PassState(st.apps[i := x.(awarded := paid)], st.left - paid, st.awarded + [i], st.left - paid <= 0.0);
      assert GrantOk(s, r, |st.awarded|, budget, lim);
      assert i !in st.awarded;
      forall k | 0 <= k < |r.awarded| ensures GrantOk(s, r, k, budget, lim) {
        if k < |st.awarded| {
          assert GrantOk(s, st, k, budget, lim);
          assert r.apps[r.awarded[k]] == st.apps[st.awarded[k]];
        }
      }
    } else {
      assert r.apps == st.apps && r.left == st.left && (st.stopped ==> r.stopped);
      forall k | 0 <= k < |r.awarded| ensures GrantOk(s, r, k, budget, lim) {
        assert GrantOk(s, st, k, budget, lim);
      }
    }
  }

  /** Every award a pass writes is as `GrantOk` describes. */
  lemma {:induction false} PassGrants(s: seq<Applicant>, n: nat, budget: real, lim: Limits, f: PassFilter)
    requires n <= |s|
    ensures GrantsOk(s, PassUpTo(s, n, budget, lim, f), budget, lim)
    decreases n
  {
    if n > 0 {
      PassGrants(s, n - 1, budget, lim, f);
      PassBudget(s, n - 1, budget, lim, f);
      PassAhead(s, n - 1, budget, lim, f);
      PassUpToNext(s, n, budget, lim, f);
      StepGrants(s, PassUpTo(s, n - 1, budget, lim, f), PassUpTo(s, n, budget, lim, f), n - 1, budget, lim, f);
    }
  }

  /** After `i` iterations the pass has listed only earlier positions and not yet touched position `i`. */
  lemma PassAhead(s: seq<Applicant>, i: nat, budget: real, lim: Limits, f: PassFilter)
    requires i < |s|
    ensures var r := PassUpTo(s, i, budget, lim, f);
      InRange(r.awarded, i) && r.apps[i] == s[i]
  {
    PassShape(s, i, budget, lim, f);
    var r := PassUpTo(s, i, budget, lim, f);
    forall k | 0 <= k < |r.awarded| ensures r.awarded[k] != i {
      assert r.awarded[k] < i;
    }
  }

  /**
    Why a pass leaves a qualifying applicant unfunded: the pass had stopped, before reaching it,
    because the budget was used up or what was left fell below the floor.
   */
  lemma {:induction false} PassStops(s: seq<Applicant>, n: nat, budget: real, lim: Limits, f: PassFilter)
    requires n <= |s|
    ensures StoppedBy(s, PassUpTo(s, n, budget, lim, f), n, lim, f)
    decreases n
  {
    if n > 0 {
      PassStops(s, n - 1, budget, lim, f);
      PassAhead(s, n - 1, budget, lim, f);
      PassUpToNext(s, n, budget, lim, f);
      StepStops(s, PassUpTo(s, n - 1, budget, lim, f), PassUpTo(s, n, budget, lim, f), n - 1, lim, f);
    }
  }

  /** Every qualifying applicant before `n` left unfunded was passed over after the pass stopped, and it stopped for lack of money. */
  predicate StoppedBy(s: seq<Applicant>, r: PassState, n: nat, lim: Limits, f: PassFilter)
    requires n <= |s|
  {
    && (forall j :: 0 <= j < n && Qualifies(s[j], lim, f) && j !in r.awarded ==> r.stopped && InRange(r.awarded, j))
    && (r.stopped ==> r.left <= 0.0 || r.left < lim.minAward)
  }

  lemma StepStops(s: seq<Applicant>, st: PassState, r: PassState, i: nat, lim: Limits, f: PassFilter)
    requires i < |s| && |st.apps| == |s| && InRange(st.awarded, i) && st.apps[i] == s[i]
    requires StoppedBy(s, st, i, lim, f) && r == Step(st, i, lim, f)
    ensures StoppedBy(s, r, i + 1, lim, f)
  {
    if r.awarded != st.awarded {
      assert r.awarded == st.awarded + [i] && !st.stopped;
    }
  }

  /** The allocator's ledger: the array, the funded indices so far, and the budget not yet spent. */
  datatype Ledger = Ledger(apps: seq<Applicant>, awarded: seq<nat>, remaining: real)

  /** The reserve passes, in the order they run: tier and share of the budget. */
  function Reserves(reserveHigh: real, reserveMedium: real, reserveLow: real): seq<(string, real)> {
    [(High, reserveHigh), (Medium, reserveMedium), (Low, reserveLow)]
  }

  /** The budget a reserve pass gets: its share of the whole budget. */
  function ReserveAmount(budget: real, share: real): real {
    budget * share
  }

  /**
    One reserve pass: skipped when its share or its amount is not positive; otherwise a pass over
    the tier with the reserved amount, whose funded applicants are appended and whose spending,
    read back from the array, is taken off the remaining budget.
   */
  function ReserveStep(st: Ledger, budget: real, reserve: (string, real), lim: Limits): Ledger {
    var (level, share) := reserve;
    if share <= 0.0 || ReserveAmount(budget, share) <= 0.0 then st
    else
      var p := Pass(st.apps, ReserveAmount(budget, share), lim, TierOnly(level));
      PassShape(st.apps, |st.apps|, ReserveAmount(budget, share), lim, TierOnly(level));
      Ledger(p.apps, st.awarded + p.awarded, st.remaining - SumAwarded(p.apps, p.awarded))
  }

  /** The ledger after the first `n` reserve passes. */
  function ReservePhase(s: seq<Applicant>, budget: real, reserves: seq<(string, real)>, n: nat, lim: Limits): Ledger
    requires n <= |reserves|
  {
    if n == 0 then Ledger(s, [], budget)
    else ReserveStep(ReservePhase(s, budget, reserves, n - 1, lim), budget, reserves[n - 1], lim)
  }

  /** The budget of the residual pass: what the reserve passes left, floored at 0. */
  function ResidualBudget(remaining: real): real {
    if remaining < 0.0 then 0.0 else remaining
  }

  /**
    The whole allocation: the reserve passes for high, medium and low, then one residual pass over
    every tier with what they left; the funded list is the reserve lists followed by the residual one.
   */
  function Allocate(s: seq<Applicant>, budget: real, lim: Limits, reserveHigh: real, reserveMedium: real, reserveLow: real): Ledger {
    var st := ReservePhase(s, budget, Reserves(reserveHigh, reserveMedium, reserveLow), 3, lim);
    var p := Pass(st.apps, ResidualBudget(st.remaining), lim, AnyTier);
    Ledger(p.apps, st.awarded + p.awarded, p.left)
  }

  /**
    Runs the reserve passes and the residual pass over the ranked array, writing awards in place,
    and returns every funded applicant: the reserve awards, tier by tier, then the residual awards.
   */
  method AllocateBudget(a: array<Applicant>, budget: real, lim: Limits, reserveHigh: real, reserveMedium: real, reserveLow: real)
    returns (awarded: seq<nat>)
    modifies a
    ensures a[..] == Allocate(old(a[..]), budget, lim, reserveHigh, reserveMedium, reserveLow).apps
    ensures awarded == Allocate(old(a[..]), budget, lim, reserveHigh, reserveMedium, reserveLow).awarded
  {
    var remaining;
    awarded, remaining := RunReserves(a, budget, lim, Reserves(reserveHigh, reserveMedium, reserveLow));
    if remaining < 0.0 {
      remaining := 0.0;
    }
    var remainingAwards := AllocatePass(a, remaining, lim, AnyTier);
    awarded := awarded + remainingAwards;
  }

  /** The reserve passes in order; returns the funded applicants and the budget they left. */
  method RunReserves(a: array<Applicant>, budget: real, lim: Limits, reserves: seq<(string, real)>)
    returns (awarded: seq<nat>, remaining: real)
    modifies a
    ensures ReservePhase(old(a[..]), budget, reserves, |reserves|, lim) == Ledger(a[..], awarded, remaining)
  {
    ghost var s := a[..];
    remaining := budget;
    awarded := [];
    for r := 0 to |reserves|
      invariant ReservePhase(s, budget, reserves, r, lim) == Ledger(a[..], awarded, remaining)
    {
      var (level, share) := reserves[r];
      if share <= 0.0 {
        ReserveStepSkips(Ledger(a[..], awarded, remaining), budget, reserves[r], lim);
        continue;
      }
      var reserved := ReserveAmount(budget, share);
      if reserved <= 0.0 {
        ReserveStepSkips(Ledger(a[..], awarded, remaining), budget, reserves[r], lim);
        continue;
      }
      ghost var st := Ledger(a[..], awarded, remaining);
      var reservedAwards := AllocatePass(a, reserved, lim, TierOnly(level));
      PassShape(st.apps, |st.apps|, reserved, lim, TierOnly(level));
      var spent := TotalAwarded(a, reservedAwards);
      awarded := awarded + reservedAwards;
      remaining := remaining - spent;
      ReserveStepRuns(st, budget, level, share, lim, a[..], reservedAwards, spent);
    }
  }

  lemma ReserveStepSkips(st: Ledger, budget: real, reserve: (string, real), lim: Limits)
    requires reserve.1 <= 0.0 || ReserveAmount(budget, reserve.1) <= 0.0
    ensures ReserveStep(st, budget, reserve, lim) == st
  {
  }

  lemma ReserveStepRuns(st: Ledger, budget: real, level: string, share: real, lim: Limits,
                        apps: seq<Applicant>, awarded: seq<nat>, spent: real)
    requires 0.0 < share && 0.0 < ReserveAmount(budget, share)
    requires apps == Pass(st.apps, ReserveAmount(budget, share), lim, TierOnly(level)).apps
    requires awarded == Pass(st.apps, ReserveAmount(budget, share), lim, TierOnly(level)).awarded
    requires InRange(awarded, |apps|) && spent == SumAwarded(apps, awarded)
    ensures ReserveStep(st, budget, (level, share), lim) == Ledger(apps, st.awarded + awarded, st.remaining - spent)
  {
  }

  /**
    The allocator's guarantees about who is funded: the array keeps its length, the funded list
    names each applicant at most once, only awards change, applicants not on the list are untouched,
    and every funded applicant was eligible and not funded before.
   */
  predicate Funded(s: seq<Applicant>, st: Ledger) {
    |st.apps| == |s| && InRange(st.awarded, |s|) && Distinct(st.awarded)
    && (forall j :: 0 <= j < |s| ==> st.apps[j] == s[j].(awarded := st.apps[j].awarded))
    && (forall j :: 0 <= j < |s| && j !in st.awarded ==> st.apps[j] == s[j])
    && (forall j :: j in st.awarded ==> s[j].eligible && s[j].awarded == 0.0)
  }

  /** Every funded applicant holds a positive award, so no later pass can fund it again. */
  predicate AwardsPositive(st: Ledger)
    requires InRange(st.awarded, |st.apps|)
  {
    forall j :: j in st.awarded ==> 0.0 < st.apps[j].awarded
  }

  /** The amount the first `n` reserve passes may spend: the reserved amounts of the passes that run. */
  function ReservedTotal(budget: real, reserves: seq<(string, real)>, n: nat): real
    requires n <= |reserves|
  {
    if n == 0 then 0.0
    else
      var share := reserves[n - 1].1;
      ReservedTotal(budget, reserves, n - 1) + (if share <= 0.0 || ReserveAmount(budget, share) <= 0.0 then 0.0 else ReserveAmount(budget, share))
  }

  /** The facts about one pass with a non-negative budget, in one place. */
  lemma PassFacts(apps: seq<Applicant>, b: real, lim: Limits, f: PassFilter)
    requires 0.0 <= b
    ensures var p := Pass(apps, b, lim, f);
      InRange(p.awarded, |apps|) && Increasing(p.awarded)
      && (forall j :: 0 <= j < |apps| && j !in p.awarded ==> p.apps[j] == apps[j])
      && (forall j :: j in p.awarded ==>
            Qualifies(apps[j], lim, f) && p.apps[j] == apps[j].(awarded := p.apps[j].awarded)
            && (0.0 < b ==> 0.0 < p.apps[j].awarded))
      && p.left == b - SumAwarded(p.apps, p.awarded) && 0.0 <= p.left
  {
    var p := Pass(apps, b, lim, f);
    PassShape(apps, |apps|, b, lim, f);
    PassBudget(apps, |apps|, b, lim, f);
    PassGrants(apps, |apps|, b, lim, f);
    forall j | j in p.awarded ensures 0.0 < b ==> 0.0 < p.apps[j].awarded {
      var k :| 0 <= k < |p.awarded| && p.awarded[k] == j;
      assert GrantOk(apps, p, k, b, lim);
    }
  }

  /**
    Appending a pass to a sound ledger keeps it sound: a pass only funds applicants whose award is
    still 0, so none of those already funded, and what the ledger's list sums to grows by exactly
    what the pass awarded.
   */
  lemma AppendPass(s: seq<Applicant>, st: Ledger, b: real, lim: Limits, f: PassFilter)
    requires Funded(s, st) && AwardsPositive(st) && 0.0 <= b
    ensures var p := Pass(st.apps, b, lim, f);
      var r := Ledger(p.apps, st.awarded + p.awarded, st.remaining);
      Funded(s, r) && InRange(p.awarded, |p.apps|)
      && SumAwarded(r.apps, r.awarded) == SumAwarded(st.apps, st.awarded) + SumAwarded(p.apps, p.awarded)
      && SumAwarded(p.apps, p.awarded) <= b
      && (0.0 < b ==> AwardsPositive(r))
      && forall j :: j in p.awarded ==> Qualifies(s[j], lim, f)
  {
    var p := Pass(st.apps, b, lim, f);
    var r := Ledger(p.apps, st.awarded + p.awarded, st.remaining);
    PassFacts(st.apps, b, lim, f);
    forall j | j in p.awarded ensures j !in st.awarded && st.apps[j] == s[j] {
      assert st.apps[j].awarded == 0.0;
    }
    assert Distinct(r.awarded) by {
      forall k, l | 0 <= k < l < |r.awarded| ensures r.awarded[k] != r.awarded[l] {
        if l < |st.awarded| {
        } else if k >= |st.awarded| {
          assert r.awarded[k] == p.awarded[k - |st.awarded|];
          assert r.awarded[l] == p.awarded[l - |st.awarded|];
        } else {
          assert r.awarded[l] in p.awarded;
        }
      }
    }
    forall j | j in st.awarded ensures p.apps[j] == st.apps[j] {
    }
    SumAwardedFrame(st.apps, p.apps, st.awarded);
    SumAwardedConcat(p.apps, st.awarded, p.awarded);
  }

  /**
    A reserve step keeps the ledger sound: nobody is funded twice, only eligible unfunded applicants
    of the reserve's tier are added, the remaining budget is the budget minus what the array says was
    awarded, and the step spends at most its reserved amount.
   */
  lemma ReserveStepKeeps(s: seq<Applicant>, st: Ledger, budget: real, reserve: (string, real), lim: Limits)
    requires Funded(s, st) && AwardsPositive(st) && st.remaining == budget - SumAwarded(st.apps, st.awarded)
    ensures var r := ReserveStep(st, budget, reserve, lim);
      Funded(s, r) && AwardsPositive(r) && r.remaining == budget - SumAwarded(r.apps, r.awarded)
    ensures var r := ReserveStep(st, budget, reserve, lim);
      var share := reserve.1;
      r.remaining >= st.remaining - (if share <= 0.0 || ReserveAmount(budget, share) <= 0.0 then 0.0 else ReserveAmount(budget, share))
    ensures var r := ReserveStep(st, budget, reserve, lim);
      |st.awarded| <= |r.awarded| && r.awarded[..|st.awarded|] == st.awarded
      && forall k :: |st.awarded| <= k < |r.awarded| ==> s[r.awarded[k]].needLevel == reserve.0
  {
    var (level, share) := reserve;
    if share <= 0.0 || ReserveAmount(budget, share) <= 0.0 {
      ReserveStepSkips(st, budget, reserve, lim);
    } else {
      var b := ReserveAmount(budget, share);
      var p := Pass(st.apps, b, lim, TierOnly(level));
      AppendPass(s, st, b, lim, TierOnly(level));
      ReserveStepRuns(st, budget, level, share, lim, p.apps, p.awarded, SumAwarded(p.apps, p.awarded));
      var r := ReserveStep(st, budget, reserve, lim);
      assert r.awarded[..|st.awarded|] == st.awarded;
      forall k | |st.awarded| <= k < |r.awarded| ensures s[r.awarded[k]].needLevel == level {
        assert r.awarded[k] in p.awarded;
      }
    }
  }

  /**
    The reserve phase keeps the ledger sound, and what it has not spent is the budget minus what
    the array says it awarded, at least the budget minus the amounts reserved for the passes that ran.
   */
  lemma {:induction false} ReservePhaseKeeps(s: seq<Applicant>, budget: real, reserves: seq<(string, real)>, n: nat, lim: Limits)
    requires n <= |reserves|
    ensures var st := ReservePhase(s, budget, reserves, n, lim);
      Funded(s, st) && AwardsPositive(st) && st.remaining == budget - SumAwarded(st.apps, st.awarded)
    ensures ReservePhase(s, budget, reserves, n, lim).remaining >= budget - ReservedTotal(budget, reserves, n)
    decreases n
  {
    if n > 0 {
      ReservePhaseKeeps(s, budget, reserves, n - 1, lim);
      ReserveStepKeeps(s, ReservePhase(s, budget, reserves, n - 1, lim), budget, reserves[n - 1], lim);
    }
  }

  /**
    Nobody is funded twice, and only eligible applicants not funded before are funded: the
    allocation changes nothing but awards, leaves every applicant off the funded list (every
    ineligible one in particular) as it was, and lists the reserve awards before the residual ones.
   */
  lemma AllocateFunded(s: seq<Applicant>, budget: real, lim: Limits, reserveHigh: real, reserveMedium: real, reserveLow: real)
    ensures Funded(s, Allocate(s, budget, lim, reserveHigh, reserveMedium, reserveLow))
    ensures var r := Allocate(s, budget, lim, reserveHigh, reserveMedium, reserveLow);
      forall j :: 0 <= j < |s| && !s[j].eligible ==> r.apps[j] == s[j]
    ensures var r := Allocate(s, budget, lim, reserveHigh, reserveMedium, reserveLow);
      var st := ReservePhase(s, budget, Reserves(reserveHigh, reserveMedium, reserveLow), 3, lim);
      |st.awarded| <= |r.awarded| && r.awarded[..|st.awarded|] == st.awarded
  {
    var st := ReservePhase(s, budget, Reserves(reserveHigh, reserveMedium, reserveLow), 3, lim);
    ReservePhaseKeeps(s, budget, Reserves(reserveHigh, reserveMedium, reserveLow), 3, lim);
    AppendPass(s, st, ResidualBudget(st.remaining), lim, AnyTier);
    var r := Allocate(s, budget, lim, reserveHigh, reserveMedium, reserveLow);
    assert r.awarded[..|st.awarded|] == st.awarded;
  }

  /**
    With a non-negative budget and reserve shares in [0, 1] summing to at most 1 (what the command
    line accepts), the reserve passes leave a non-negative remainder and the whole allocation, as
    read back from the array, never exceeds the budget.
   */
  lemma AllocateWithinBudget(s: seq<Applicant>, budget: real, lim: Limits, reserveHigh: real, reserveMedium: real, reserveLow: real)
    requires 0.0 <= budget
    requires 0.0 <= reserveHigh && 0.0 <= reserveMedium && 0.0 <= reserveLow
    requires reserveHigh + reserveMedium + reserveLow <= 1.0
    ensures 0.0 <= ReservePhase(s, budget, Reserves(reserveHigh, reserveMedium, reserveLow), 3, lim).remaining
    ensures var r := Allocate(s, budget, lim, reserveHigh, reserveMedium, reserveLow);
      InRange(r.awarded, |r.apps|) && SumAwarded(r.apps, r.awarded) <= budget
  {
    var reserves := Reserves(reserveHigh, reserveMedium, reserveLow);
    var st := ReservePhase(s, budget, reserves, 3, lim);
    ReservePhaseKeeps(s, budget, reserves, 3, lim);
    ReservedWithinBudget(budget, reserveHigh, reserveMedium, reserveLow);
    AppendPass(s, st, ResidualBudget(st.remaining), lim, AnyTier);
  }

  lemma ReservedWithinBudget(budget: real, reserveHigh: real, reserveMedium: real, reserveLow: real)
    requires 0.0 <= budget
    requires 0.0 <= reserveHigh && 0.0 <= reserveMedium && 0.0 <= reserveLow
    requires reserveHigh + reserveMedium + reserveLow <= 1.0
    ensures ReservedTotal(budget, Reserves(reserveHigh, reserveMedium, reserveLow), 3) <= budget
  {
    var reserves := Reserves(reserveHigh, reserveMedium, reserveLow);
    assert 0.0 <= budget * reserveHigh && 0.0 <= budget * reserveMedium && 0.0 <= budget * reserveLow;
    assert reserves[0].1 == reserveHigh && reserves[1].1 == reserveMedium && reserves[2].1 == reserveLow;
    assert ReservedTotal(budget, reserves, 1) <= budget * reserveHigh;
    assert ReservedTotal(budget, reserves, 2) <= budget * reserveHigh + budget * reserveMedium;
    assert ReservedTotal(budget, reserves, 3) <= budget * reserveHigh + budget * reserveMedium + budget * reserveLow;
    assert budget * reserveHigh + budget * reserveMedium + budget * reserveLow == budget * (reserveHigh + reserveMedium + reserveLow);
    var unreserved := 1.0 - (reserveHigh + reserveMedium + reserveLow);
    assert 0.0 <= budget * unreserved;
    assert budget * unreserved == budget - budget * (reserveHigh + reserveMedium + reserveLow);
  }

  /**
    With nothing left for it and a zero floor, a pass still puts the first qualifying applicant on
    its funded list, with an award of 0 (so it stays unfunded for every later check of `awarded`).
   */
  lemma EmptyPassListsZeroAward(s: seq<Applicant>, lim: Limits, f: PassFilter)
    requires s != [] && Qualifies(s[0], lim, f) && lim.minAward <= 0.0
    ensures Pass(s, 0.0, lim, f).awarded == [0]
    ensures Pass(s, 0.0, lim, f).apps[0] == s[0]
  {
    assert PassUpTo(s, 0, 0.0, lim, f) == PassState(s, 0.0, [], false);
    var st := PassUpTo(s, 1, 0.0, lim, f);
    assert st == Step(PassState(s, 0.0, [], false), 0, lim, f);
    assert st.stopped && st.awarded == [0] && st.apps[0] == s[0].(awarded := 0.0);
    StoppedStays(s, 1, |s|, 0.0, lim, f);
  }

  /**
    The ranked applicants of the repository's allocation example: two high tier, then two low. Each
    normalised score is the raw score over 95, and each priority is 0.7 times it plus 0.3 times the
    tier value (1 for high, 0 for low).
   */
  const ExampleRanked: seq<Applicant> := [
    Applicant("a1", "A", High, 95.0, 1.0, 300.0, 1.0, 0.0, true, ""),
    Applicant("a2", "B", High, 90.0, 18.0 / 19.0, 300.0, 18.3 / 19.0, 0.0, true, ""),
    Applicant("a3", "C", Low, 85.0, 17.0 / 19.0, 300.0, 11.9 / 19.0, 0.0, true, ""),
    Applicant("a4", "D", Low, 80.0, 16.0 / 19.0, 300.0, 11.2 / 19.0, 0.0, true, "")]

  /** Awards between 100 and 300, no rounding, no percent cap. */
  const ExampleLimits: Limits := Limits(100.0, 300.0, 0.0, 1.0)

  /** The example array with the given awards written in. */
  function ExampleFunded(a1: real, a2: real, a3: real, a4: real): seq<Applicant> {
    var s := ExampleRanked;
    [s[0].(awarded := a1), s[1].(awarded := a2), s[2].(awarded := a3), s[3].(awarded := a4)]
  }

  lemma ExampleAwards()
    ensures forall x :: x in ExampleRanked ==> AwardFor(x, ExampleLimits) == 300.0
  {
    ComputeAwardWithoutRounding(300.0, 100.0, 300.0, 0.0, 1.0);
  }

  /** The high reserve (500) pays the first high applicant 300 and the second the 200 left. */
  lemma ExampleHighPass()
    ensures Pass(ExampleRanked, 500.0, ExampleLimits, TierOnly(High))
      == PassState(ExampleFunded(300.0, 200.0, 0.0, 0.0), 0.0, [0, 1], true)
  {
    var s, lim, high := ExampleRanked, ExampleLimits, TierOnly(High);
    ExampleAwards();
    assert PassUpTo(s, 0, 500.0, lim, high) == PassState(s, 500.0, [], false);
    assert Qualifies(s[0], lim, high) && Qualifies(s[1], lim, high);
    var h1 := PassUpTo(s, 1, 500.0, lim, high);
    assert h1 == PassState(s[0 := s[0].(awarded := 300.0)], 200.0, [0], false);
    var h2 := PassUpTo(s, 2, 500.0, lim, high);
    assert h2 == PassState(h1.apps[1 := s[1].(awarded := 200.0)], 0.0, [0, 1], true);
    StoppedStays(s, 2, 4, 500.0, lim, high);
  }

  /** The residual 500 passes over the funded high tier and pays the low tier 300 and then 200. */
  lemma ExampleResidualPass()
    ensures Pass(ExampleFunded(300.0, 200.0, 0.0, 0.0), 500.0, ExampleLimits, AnyTier)
      == PassState(ExampleFunded(300.0, 200.0, 300.0, 200.0), 0.0, [2, 3], true)
  {
    var t, lim := ExampleFunded(300.0, 200.0, 0.0, 0.0), ExampleLimits;
    ExampleAwards();
    assert AwardFor(t[2], lim) == 300.0 && AwardFor(t[3], lim) == 300.0 by {
      assert t[2].requested == ExampleRanked[2].requested && t[3].requested == ExampleRanked[3].requested;
    }
    assert PassUpTo(t, 0, 500.0, lim, AnyTier) == PassState(t, 500.0, [], false);
    assert PassUpTo(t, 1, 500.0, lim, AnyTier) == PassState(t, 500.0, [], false);
    assert PassUpTo(t, 2, 500.0, lim, AnyTier) == PassState(t, 500.0, [], false);
    var r3 := PassUpTo(t, 3, 500.0, lim, AnyTier);
    assert r3 == PassState(t[2 := t[2].(awarded := 300.0)], 200.0, [2], false);
    var r4 := PassUpTo(t, 4, 500.0, lim, AnyTier);
    assert r4 == PassState(r3.apps[3 := t[3].(awarded := 200.0)], 0.0, [2, 3], true);
  }

  /**
    The repository's allocation example: four ranked applicants asking 300 each, two high and two
    low, a budget of 1000 with half reserved for the high tier, awards between 100 and 300. The high
    reserve funds 300 and then the remaining 200; the residual 500 funds the low tier the same way:
    four awards totalling 1000, 500 of it to the high tier.
   */
  lemma AllocateExample()
    ensures var r := Allocate(ExampleRanked, 1000.0, ExampleLimits, 0.5, 0.0, 0.0);
      r.awarded == [0, 1, 2, 3] && |r.apps| == 4
      && r.apps[0].awarded == 300.0 && r.apps[1].awarded == 200.0
      && r.apps[2].awarded == 300.0 && r.apps[3].awarded == 200.0
      && SumAwarded(r.apps, r.awarded) == 1000.0
  {
    var lim := ExampleLimits;
    var t := ExampleFunded(300.0, 200.0, 0.0, 0.0);
    ExampleReservePhase();
    ExampleResidualPass();
    var u := ExampleFunded(300.0, 200.0, 300.0, 200.0);
    var r := Allocate(ExampleRanked, 1000.0, lim, 0.5, 0.0, 0.0);
    assert r == Ledger(u, [0, 1, 2, 3], 0.0);
    assert SumAwarded(u, [0, 1, 2, 3]) == 1000.0 by {
      assert [0, 1, 2, 3][..3] == [0, 1, 2];
      assert [0, 1, 2][..2] == [0, 1];
      assert [0, 1][..1] == [0];
      assert [0][..0] == [];
    }
  }

  /** The reserve phase of the example: only the high reserve runs, spending 500 of the 1000. */
  lemma ExampleReservePhase()
    ensures ReservePhase(ExampleRanked, 1000.0, Reserves(0.5, 0.0, 0.0), 3, ExampleLimits)
      == Ledger(ExampleFunded(300.0, 200.0, 0.0, 0.0), [0, 1], 500.0)
  {
    var s, lim := ExampleRanked, ExampleLimits;
    var reserves := Reserves(0.5, 0.0, 0.0);
    var t := ExampleFunded(300.0, 200.0, 0.0, 0.0);
    ExampleHighPass();
    assert SumAwarded(t, [0, 1]) == 500.0 by {
      assert [0, 1][..1] == [0];
      assert [0][..0] == [];
    }
    ReserveStepRuns(Ledger(s, [], 1000.0), 1000.0, High, 0.5, lim, t, [0, 1], 500.0);
    assert ReservePhase(s, 1000.0, reserves, 1, lim) == Ledger(t, [0, 1], 500.0);
    ReserveStepSkips(Ledger(t, [0, 1], 500.0), 1000.0, reserves[1], lim);
    assert ReservePhase(s, 1000.0, reserves, 2, lim) == Ledger(t, [0, 1], 500.0);
    ReserveStepSkips(Ledger(t, [0, 1], 500.0), 1000.0, reserves[2], lim);
  }
}
