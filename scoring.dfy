/**
  The steps that run before ranking, each over the whole applicant array in place: the
  minimum-score eligibility check, score normalisation and priority blending.
 */
module Scoring {
  import opened Applicants
  import opened Arith

  /**
    Marks every applicant whose raw score is below `minScore` ineligible with `reason`; a threshold
    that is not positive disables the check. `reason` is the message text the caller formats from
    the threshold ("score below minimum (<threshold to one decimal>)").
   */
  method ApplyMinScore(a: array<Applicant>, minScore: real, reason: string)
    modifies a
    ensures minScore <= 0.0 ==> a[..] == old(a[..])
    ensures 0.0 < minScore ==> forall i :: 0 <= i < a.Length ==>
      a[i] == (if old(a[i]).scoreRaw < minScore then MarkIneligible(old(a[i]), reason) else old(a[i]))
    ensures a[..] == MinScored(old(a[..]), minScore, reason)
  {
    if minScore <= 0.0 {
      return;
    }
    for i := 0 to a.Length
      invariant forall k :: 0 <= k < i ==>
        a[k] == (if old(a[k]).scoreRaw < minScore then MarkIneligible(old(a[k]), reason) else old(a[k]))
      invariant forall k :: i <= k < a.Length ==> a[k] == old(a[k])
    {
      if a[i].scoreRaw < minScore {
        a[i] := MarkIneligible(a[i], reason);
      }
    }
  }

  /** The applicants as the minimum-score check leaves them. */
  function MinScored(s: seq<Applicant>, minScore: real, reason: string): seq<Applicant> {
    if minScore <= 0.0 then s
    else seq(|s|, i requires 0 <= i < |s| => if s[i].scoreRaw < minScore then MarkIneligible(s[i], reason) else s[i])
  }

  /**
    The largest raw score, starting from 0: the running maximum the normaliser keeps, so it is never
    negative and bounds every raw score, eligible or not.
   */
  function MaxRawScore(s: seq<Applicant>): (m: real)
    ensures 0.0 <= m
    ensures forall i :: 0 <= i < |s| ==> s[i].scoreRaw <= m
    ensures m == 0.0 || exists i :: 0 <= i < |s| && s[i].scoreRaw == m
  {
    if s == [] then 0.0
    else
      var m := MaxRawScore(s[..|s| - 1]);
      if s[|s| - 1].scoreRaw > m then s[|s| - 1].scoreRaw else m
  }

  /** The divisor used by normalisation: the largest raw score, or 1 when that maximum is 0. */
  function ScoreDenominator(s: seq<Applicant>): (d: real)
    ensures 0.0 < d
    ensures forall i :: 0 <= i < |s| ==> s[i].scoreRaw <= d
    ensures d == 1.0 || exists i :: 0 <= i < |s| && s[i].scoreRaw == d
  {
    var m := MaxRawScore(s);
    if m == 0.0 then 1.0 else m
  }

  /**
    Sets every applicant's normalised score to its raw score over the largest raw score of the whole
    array (eligible or not), or over 1 when that maximum is 0; nothing else changes.
   */
  method NormalizeScores(a: array<Applicant>)
    modifies a
    ensures forall i :: 0 <= i < a.Length ==>
      a[i] == old(a[i]).(scoreNorm := old(a[i]).scoreRaw / ScoreDenominator(old(a[..])))
    ensures a[..] == Normalized(old(a[..]))
  {
    var maxScore := 0.0;
    for i := 0 to a.Length
      invariant maxScore == MaxRawScore(a[..i])
    {
      assert a[..i + 1][..i] == a[..i];
      if a[i].scoreRaw > maxScore {
        maxScore := a[i].scoreRaw;
      }
    }
    assert a[..a.Length] == a[..];
    if maxScore == 0.0 {
      maxScore := 1.0;
    }
    ghost var before := a[..];
    for i := 0 to a.Length
      invariant forall k :: 0 <= k < i ==> a[k] == before[k].(scoreNorm := before[k].scoreRaw / maxScore)
      invariant forall k :: i <= k < a.Length ==> a[k] == before[k]
    {
      a[i] := a[i].(scoreNorm := a[i].scoreRaw / maxScore);
    }
  }

  /** Normalisation maps every non-negative raw score into [0, 1]. */
  lemma NormalizedScoreBounds(s: seq<Applicant>, i: nat)
    requires i < |s| && 0.0 <= s[i].scoreRaw
    ensures 0.0 <= s[i].scoreRaw / ScoreDenominator(s) <= 1.0
  {
    DivideAtMostOne(s[i].scoreRaw, ScoreDenominator(s));
  }

  /** When some raw score is positive, the top raw score normalises to exactly 1. */
  lemma TopScoreNormalizesToOne(s: seq<Applicant>, i: nat)
    requires i < |s| && 0.0 < s[i].scoreRaw
    ensures exists j :: 0 <= j < |s| && s[j].scoreRaw / ScoreDenominator(s) == 1.0
  {
    var d := ScoreDenominator(s);
    assert MaxRawScore(s) != 0.0;
    var j :| 0 <= j < |s| && s[j].scoreRaw == d;
    DivBounds(s[j].scoreRaw, d, 1.0, 1.0);
  }

  /** The applicants as normalisation leaves them. */
  function Normalized(s: seq<Applicant>): seq<Applicant> {
    seq(|s|, i requires 0 <= i < |s| => s[i].(scoreNorm := s[i].scoreRaw / ScoreDenominator(s)))
  }

  /** The blended priority: the weighted average of the normalised score and the tier's base value. */
  function Priority(x: Applicant, scoreWeight: real, needWeight: real): real
    requires 0.0 < scoreWeight + needWeight
  {
    WeightedAverage(scoreWeight, needWeight, x.scoreNorm, NeedScore(x.needLevel))
  }

  function WeightedAverage(w1: real, w2: real, v1: real, v2: real): real
    requires 0.0 < w1 + w2
  {
    (w1 * v1 + w2 * v2) / (w1 + w2)
  }

  /**
    With non-negative weights, the priority lies between the normalised score and the tier's base
    value; with a normalised score in [0, 1] it therefore lies in [0, 1].
   */
  lemma PriorityIsWeightedAverage(x: Applicant, scoreWeight: real, needWeight: real)
    requires 0.0 <= scoreWeight && 0.0 <= needWeight && 0.0 < scoreWeight + needWeight
    ensures var need := NeedScore(x.needLevel);
      var lo := if x.scoreNorm < need then x.scoreNorm else need;
      var hi := if x.scoreNorm < need then need else x.scoreNorm;
      lo <= Priority(x, scoreWeight, needWeight) <= hi
    ensures 0.0 <= x.scoreNorm <= 1.0 ==> 0.0 <= Priority(x, scoreWeight, needWeight) <= 1.0
  {
    NeedScoreUnit(x.needLevel);
    WeightedAverageBounds(scoreWeight, needWeight, x.scoreNorm, NeedScore(x.needLevel));
  }

  /** A weighted average with non-negative weights lies between the two values it averages. */
  lemma WeightedAverageBounds(w1: real, w2: real, v1: real, v2: real)
    requires 0.0 <= w1 && 0.0 <= w2 && 0.0 < w1 + w2
    ensures (if v1 < v2 then v1 else v2) <= WeightedAverage(w1, w2, v1, v2) <= (if v1 < v2 then v2 else v1)
  {
    var num, total := w1 * v1 + w2 * v2, w1 + w2;
    assert WeightedAverage(w1, w2, v1, v2) == num / total;
    var lo := if v1 < v2 then v1 else v2;
    var hi := if v1 < v2 then v2 else v1;
    WeightedSumBounds(w1, w2, v1, v2, lo, hi);
    DivBounds(num, total, lo, hi);
  }

  /** The weighted sum lies between the total weight times a lower and times an upper bound of both values. */
  lemma WeightedSumBounds(w1: real, w2: real, v1: real, v2: real, lo: real, hi: real)
    requires 0.0 <= w1 && 0.0 <= w2 && lo <= v1 <= hi && lo <= v2 <= hi
    ensures (w1 + w2) * lo <= w1 * v1 + w2 * v2 <= (w1 + w2) * hi
  {
    ScaledSumMonotone(w1, w2, lo, lo, v1, v2);
    ScaledSumMonotone(w1, w2, v1, v2, hi, hi);
    Distribute(w1, w2, lo);
    Distribute(w1, w2, hi);
  }

  lemma ScaledSumMonotone(w1: real, w2: real, x1: real, x2: real, y1: real, y2: real)
    requires 0.0 <= w1 && 0.0 <= w2 && x1 <= y1 && x2 <= y2
    ensures w1 * x1 + w2 * x2 <= w1 * y1 + w2 * y2
  {
    MulMonotone(w1, x1, y1);
    MulMonotone(w2, x2, y2);
  }

  lemma Distribute(w1: real, w2: real, x: real)
    ensures (w1 + w2) * x == w1 * x + w2 * x
  {}

  /** The applicants as priority blending leaves them. */
  function Prioritized(s: seq<Applicant>, scoreWeight: real, needWeight: real): seq<Applicant>
    requires 0.0 < scoreWeight + needWeight
  {
    seq(|s|, i requires 0 <= i < |s| => s[i].(priority := Priority(s[i], scoreWeight, needWeight)))
  }

  /**
    Sets every applicant's priority to the blend of its normalised score and tier value, weighted by
    `scoreWeight` and `needWeight` (the command line rejects negative weights and a zero total).
   */
  method AssignPriority(a: array<Applicant>, scoreWeight: real, needWeight: real)
    requires 0.0 <= scoreWeight && 0.0 <= needWeight && 0.0 < scoreWeight + needWeight
    modifies a
    ensures forall i :: 0 <= i < a.Length ==>
      a[i] == old(a[i]).(priority := Priority(old(a[i]), scoreWeight, needWeight))
    ensures a[..] == Prioritized(old(a[..]), scoreWeight, needWeight)
  {
    for i := 0 to a.Length
      invariant forall k :: 0 <= k < i ==>
        a[k] == old(a[k]).(priority := Priority(old(a[k]), scoreWeight, needWeight))
      invariant forall k :: i <= k < a.Length ==> a[k] == old(a[k])
    {
      ghost var x := a[i];
      assert x == old(a[i]);
      var need := needWeight * NeedScore(a[i].needLevel);
      a[i] := a[i].(priority := (scoreWeight * a[i].scoreNorm + need) / (scoreWeight + needWeight));
      assert a[i] == x.(priority := Priority(x, scoreWeight, needWeight));
    }
  }
}
