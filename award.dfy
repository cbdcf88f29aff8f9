/**
  The award calculator: the amount one applicant would receive in isolation, from the
  requested amount and the global floor, ceiling, rounding increment and percent-of-request cap.
 */
module Award {
  import opened Arith

  /** `value` pulled into `[lo, hi]`, the lower bound checked first. */
  function Clamp(value: real, lo: real, hi: real): (r: real)
    ensures lo <= hi ==> lo <= r <= hi
    ensures lo <= value <= hi ==> r == value
    ensures value < lo ==> r == lo
    ensures lo <= value && hi < value ==> r == hi
  {
    if value < lo then lo
    else if value > hi then hi
    else value
  }

  /** The integer conversion of a 64-bit float: the fractional part is dropped (toward zero). */
  function Trunc(x: real): (n: int)
    ensures 0.0 <= x ==> n as real <= x < n as real + 1.0
    ensures x < 0.0 ==> n as real - 1.0 < x <= n as real
  {
    if x >= 0.0 then x.Floor else -((-x).Floor)
  }

  /**
    Rounds half up to a multiple of `increment` (unchanged when the increment is not positive).
    For a non-negative value the result is a non-negative multiple of the increment within half
    an increment of the value.
   */
  function RoundToIncrement(value: real, increment: real): (r: real)
    ensures increment <= 0.0 ==> r == value
    ensures 0.0 < increment && 0.0 <= value ==> 0.0 <= r && value - increment / 2.0 < r <= value + increment / 2.0
    ensures 0.0 < increment ==> (r / increment).Floor as real == r / increment
  {
    if increment <= 0.0 then value
    else
      var k := Trunc(value / increment + 0.5);
      var r := k as real * increment;
      assert r / increment == k as real;
      assert 0.0 <= value ==> value - increment / 2.0 < r <= value + increment / 2.0 by {
        if 0.0 <= value {
          RoundBounds(value, increment, k as real);
        }
      }
      r
  }

  /** A multiple k of the increment, with k the rounded-half-up quotient, is within half an increment. */
  lemma RoundBounds(value: real, increment: real, k: real)
    requires 0.0 < increment && k <= value / increment + 0.5 < k + 1.0
    ensures value - increment / 2.0 < k * increment
    ensures k * increment <= value + increment / 2.0
  {
    var q := value / increment;
    assert k - 0.5 <= q < k + 0.5;
    assert value - increment / 2.0 < k * increment by {
      MulPos((k + 0.5) - q, increment);
      assert ((k + 0.5) - q) * increment == k * increment + increment / 2.0 - value;
    }
    assert k * increment <= value + increment / 2.0 by {
      MulNonneg(q - (k - 0.5), increment);
      assert (q - (k - 0.5)) * increment == value - k * increment + increment / 2.0;
    }
  }

  /** The ceiling for one award: the smaller of the absolute and percent caps, never below 0. */
  function CapAmount(requested: real, maxAward: real, maxPercent: real): (c: real)
    ensures 0.0 <= c
    ensures c <= maxAward || c == 0.0
    ensures c <= requested * maxPercent || c == 0.0
    ensures c == maxAward || c == requested * maxPercent || c == 0.0
  {
    var percentCap := requested * maxPercent;
    var capAmount := if percentCap < maxAward then percentCap else maxAward;
    if capAmount < 0.0 then 0.0 else capAmount
  }

  /**
    The award for one applicant: the request clamped into [minAward, cap], except that a request
    below the floor is honoured as it is; the result is re-clamped to the cap and then, when a
    rounding increment is set, rounded half up and clamped into [minAward, cap] again.
   */
  function ComputeAward(requested: real, minAward: real, maxAward: real, roundTo: real, maxPercent: real): (r: real)
    // Without rounding the award never exceeds the cap.
    ensures roundTo <= 0.0 ==> r <= CapAmount(requested, maxAward, maxPercent)
    // With rounding the result lies within [minAward, cap] whenever that interval is not empty.
    ensures 0.0 < roundTo && minAward <= CapAmount(requested, maxAward, maxPercent) ==>
      minAward <= r <= CapAmount(requested, maxAward, maxPercent)
    // With a non-negative floor and a non-negative request the award is never negative.
    ensures 0.0 <= minAward && 0.0 <= requested ==> 0.0 <= r
  {
    var capAmount := CapAmount(requested, maxAward, maxPercent);
    var award := CappedAward(requested, minAward, maxAward, maxPercent);
    if roundTo > 0.0 then Clamp(RoundToIncrement(award, roundTo), minAward, capAmount)
    else award
  }

  /**
    The award before rounding: the request clamped into [minAward, cap], a request below the floor
    taken as it is, then the cap applied once more.
   */
  function CappedAward(requested: real, minAward: real, maxAward: real, maxPercent: real): (r: real)
    ensures r <= CapAmount(requested, maxAward, maxPercent)
    ensures 0.0 <= minAward && 0.0 <= requested ==> 0.0 <= r
  {
    var capAmount := CapAmount(requested, maxAward, maxPercent);
    var clamped := Clamp(requested, minAward, capAmount);
    var award := if requested < minAward then requested else clamped;
    if award > capAmount then capAmount else award
  }

  /** With a non-negative request and a percent cap in (0, 1], the pre-rounding award is the cap. */
  lemma CappedAwardIsCap(requested: real, minAward: real, maxAward: real, maxPercent: real)
    requires 0.0 <= requested && 0.0 < maxPercent <= 1.0
    ensures CappedAward(requested, minAward, maxAward, maxPercent) == CapAmount(requested, maxAward, maxPercent)
  {
    assert requested * maxPercent <= requested * 1.0;
    assert CapAmount(requested, maxAward, maxPercent) <= requested;
  }

  /**
    Under the configuration the command line accepts (a non-negative request and a percent cap
    in (0, 1]), the clamp-and-override steps always collapse to the cap itself, so without rounding
    the award IS the cap and never exceeds the request: a request below the floor is paid in full
    when the percent cap is 1.
   */
  lemma ComputeAwardWithoutRounding(requested: real, minAward: real, maxAward: real, roundTo: real, maxPercent: real)
    requires 0.0 <= requested && 0.0 < maxPercent <= 1.0 && roundTo <= 0.0
    ensures ComputeAward(requested, minAward, maxAward, roundTo, maxPercent) == CapAmount(requested, maxAward, maxPercent)
    ensures ComputeAward(requested, minAward, maxAward, roundTo, maxPercent) <= requested
    ensures maxPercent == 1.0 && requested < minAward && requested <= maxAward ==>
      ComputeAward(requested, minAward, maxAward, roundTo, maxPercent) == requested
  {
    CappedAwardIsCap(requested, minAward, maxAward, maxPercent);
    assert requested * maxPercent <= requested * 1.0;
  }

  /**
    With rounding, the value that is rounded is the cap: the result is the cap rounded half up to
    the increment and clamped back into [minAward, cap].
   */
  lemma ComputeAwardWithRounding(requested: real, minAward: real, maxAward: real, roundTo: real, maxPercent: real)
    requires 0.0 <= requested && 0.0 < maxPercent <= 1.0 && 0.0 < roundTo
    ensures var cap := CapAmount(requested, maxAward, maxPercent);
      ComputeAward(requested, minAward, maxAward, roundTo, maxPercent) == Clamp(RoundToIncrement(cap, roundTo), minAward, cap)
  {
    CappedAwardIsCap(requested, minAward, maxAward, maxPercent);
  }

  /**
    The re-clamp after rounding puts the floor before the cap: when the cap plus half an increment
    is still below the floor, the award is the floor, above the cap and, when the request itself is
    below the floor, above the request.
   */
  lemma ComputeAwardCanExceedCap(requested: real, minAward: real, maxAward: real, roundTo: real, maxPercent: real)
    requires 0.0 <= requested && 0.0 < maxPercent <= 1.0 && 0.0 < roundTo
    requires CapAmount(requested, maxAward, maxPercent) + roundTo / 2.0 < minAward
    ensures ComputeAward(requested, minAward, maxAward, roundTo, maxPercent) == minAward
    ensures minAward > CapAmount(requested, maxAward, maxPercent)
    ensures requested < minAward ==> ComputeAward(requested, minAward, maxAward, roundTo, maxPercent) > requested
  {
    ComputeAwardWithRounding(requested, minAward, maxAward, roundTo, maxPercent);
  }

  /** The cases pinned down by the repository's unit test of the calculator. */
  lemma ComputeAwardExamples()
    ensures ComputeAward(1000.0, 500.0, 2000.0, 0.0, 0.5) == 500.0
    ensures ComputeAward(300.0, 500.0, 2000.0, 0.0, 1.0) == 300.0
    ensures ComputeAward(1100.0, 200.0, 2000.0, 250.0, 1.0) == 1000.0
    ensures ComputeAward(100.0, 500.0, 2000.0, 50.0, 1.0) == 500.0
  {
    assert Trunc(1100.0 / 250.0 + 0.5) == 4;
    ComputeAwardCanExceedCap(100.0, 500.0, 2000.0, 50.0, 1.0);
  }
}
