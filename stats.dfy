/**
  The summary statistics over lists of amounts: minimum, maximum, mean and the nearest-rank
  percentile, each 0 for an empty list.
 */
module Stats {
  import opened Arith

  predicate SortedAsc(s: seq<real>) {
    forall i, j :: 0 <= i < j < |s| ==> s[i] <= s[j]
  }

  /** `x` placed into `s` behind every element not above it, scanning from the end. */
  function InsertAsc(s: seq<real>, x: real): (r: seq<real>)
    ensures |r| == |s| + 1
    ensures multiset(r) == multiset(s) + multiset{x}
  {
    if s == [] || s[|s| - 1] <= x then s + [x]
    else
      var init := s[..|s| - 1];
      assert s == init + [s[|s| - 1]];
      InsertAsc(init, x) + [s[|s| - 1]]
  }

  /** The ascending sort of a copy of `s`. */
  function SortAscending(s: seq<real>): (r: seq<real>)
    ensures |r| == |s|
  {
    if s == [] then [] else InsertAsc(SortAscending(s[..|s| - 1]), s[|s| - 1])
  }

  lemma {:induction false} InsertAscSorted(s: seq<real>, x: real)
    requires SortedAsc(s)
    ensures SortedAsc(InsertAsc(s, x))
    decreases |s|
  {
    if !(s == [] || s[|s| - 1] <= x) {
      var init := s[..|s| - 1];
      InsertAscSorted(init, x);
      var q := InsertAsc(init, x);
      forall i | 0 <= i < |q| ensures q[i] <= s[|s| - 1] {
        assert q[i] in multiset(q);
        if q[i] != x {
          assert q[i] in multiset(init);
          var k :| 0 <= k < |init| && init[k] == q[i];
          assert s[k] == q[i];
        }
      }
    }
  }

  /** The sorted copy is sorted and holds exactly the input's values. */
  lemma {:induction false} SortAscendingSpec(s: seq<real>)
    ensures SortedAsc(SortAscending(s))
    ensures multiset(SortAscending(s)) == multiset(s)
    decreases |s|
  {
    if s != [] {
      SortAscendingSpec(s[..|s| - 1]);
      InsertAscSorted(SortAscending(s[..|s| - 1]), s[|s| - 1]);
      assert s == s[..|s| - 1] + [s[|s| - 1]];
    }
  }

  /** Two sorted arrangements of the same values are equal, so any ascending sort gives `SortAscending`. */
  lemma {:induction false} SortedUnique(a: seq<real>, b: seq<real>)
    requires SortedAsc(a) && SortedAsc(b) && multiset(a) == multiset(b)
    ensures a == b
    decreases |a|
  {
    if a != [] {
      assert |b| == |multiset(b)| == |a|;
      HeadsAgree(a, b);
      MultisetTail(a);
      MultisetTail(b);
      SortedTail(a);
      SortedTail(b);
      SortedUnique(a[1..], b[1..]);
      assert a == [a[0]] + a[1..] && b == [b[0]] + b[1..];
    }
  }

  lemma HeadsAgree(a: seq<real>, b: seq<real>)
    requires SortedAsc(a) && SortedAsc(b) && multiset(a) == multiset(b) && a != [] && b != []
    ensures a[0] == b[0]
  {
    assert a[0] in multiset(a) && b[0] in multiset(b);
    HeadIsLeast(a, b[0]);
    HeadIsLeast(b, a[0]);
  }

  lemma SortedTail(a: seq<real>)
    requires SortedAsc(a) && a != []
    ensures SortedAsc(a[1..])
  {
    var t := a[1..];
    forall i, j | 0 <= i < j < |t| ensures t[i] <= t[j] {
      assert t[i] == a[i + 1] && t[j] == a[j + 1];
    }
  }

  /** The head of a sorted list is at most every value the list holds. */
  lemma HeadIsLeast(a: seq<real>, x: real)
    requires SortedAsc(a) && a != [] && x in multiset(a)
    ensures a[0] <= x
  {
    var j :| 0 <= j < |a| && a[j] == x;
  }

  lemma MultisetTail(a: seq<real>)
    requires a != []
    ensures multiset(a[1..]) == multiset(a) - multiset{a[0]}
  {
    assert a == [a[0]] + a[1..];
  }

  /** The smallest value of a non-empty list. */
  function MinOf(v: seq<real>): (m: real)
    requires v != []
    ensures m in v
    ensures forall i :: 0 <= i < |v| ==> m <= v[i]
  {
    if |v| == 1 then v[0]
    else
      var m := MinOf(v[..|v| - 1]);
      if v[|v| - 1] < m then v[|v| - 1] else m
  }

  /** The largest value of a non-empty list. */
  function MaxOf(v: seq<real>): (m: real)
    requires v != []
    ensures m in v
    ensures forall i :: 0 <= i < |v| ==> v[i] <= m
  {
    if |v| == 1 then v[0]
    else
      var m := MaxOf(v[..|v| - 1]);
      if v[|v| - 1] > m then v[|v| - 1] else m
  }

  /** The minimum of a list, 0 when it is empty. */
  function MinFloat(v: seq<real>): real {
    if v == [] then 0.0 else MinOf(v)
  }

  /** The maximum of a list, 0 when it is empty. */
  function MaxFloat(v: seq<real>): real {
    if v == [] then 0.0 else MaxOf(v)
  }

  function Sum(v: seq<real>): real {
    if v == [] then 0.0 else Sum(v[..|v| - 1]) + v[|v| - 1]
  }

  lemma {:induction false} SumBounds(v: seq<real>, lo: real, hi: real)
    requires forall i :: 0 <= i < |v| ==> lo <= v[i] <= hi
    ensures |v| as real * lo <= Sum(v) <= |v| as real * hi
    decreases |v|
  {
    if v != [] {
      SumBounds(v[..|v| - 1], lo, hi);
      assert |v| as real * lo == (|v| - 1) as real * lo + lo;
      assert |v| as real * hi == (|v| - 1) as real * hi + hi;
    }
  }

  /** The mean of a list, 0 when it is empty. */
  function AverageFloat(v: seq<real>): real {
    if v == [] then 0.0 else Sum(v) / |v| as real
  }

  /** The mean of values in [0, 1] lies in [0, 1]. */
  lemma AverageUnit(v: seq<real>)
    requires forall j :: 0 <= j < |v| ==> 0.0 <= v[j] <= 1.0
    ensures 0.0 <= AverageFloat(v) <= 1.0
  {
    if v != [] {
      AverageWithin(v, 0.0, 1.0);
    }
  }

  /** The quartiles and the mean of a non-empty list lie in order between its minimum and maximum. */
  lemma QuartilesBetween(v: seq<real>)
    requires v != []
    ensures MinOf(v) <= Percentile(v, 0.25) <= Percentile(v, 0.50) <= Percentile(v, 0.75) <= MaxOf(v)
    ensures MinOf(v) <= AverageFloat(v) <= MaxOf(v)
  {
    AverageBetween(v);
    PercentileMonotone(v, 0.0, 0.25);
    PercentileMonotone(v, 0.25, 0.50);
    PercentileMonotone(v, 0.50, 0.75);
    PercentileMonotone(v, 0.75, 1.0);
  }

  /** The mean lies between the minimum and the maximum. */
  lemma AverageBetween(v: seq<real>)
    ensures MinFloat(v) <= AverageFloat(v) <= MaxFloat(v)
  {
    if v != [] {
      SumBounds(v, MinOf(v), MaxOf(v));
      DivBounds(Sum(v), |v| as real, MinOf(v), MaxOf(v));
    }
  }

  /** The mean of values that all lie in [lo, hi] lies in [lo, hi] too. */
  lemma AverageWithin(v: seq<real>, lo: real, hi: real)
    requires v != [] && forall i :: 0 <= i < |v| ==> lo <= v[i] <= hi
    ensures lo <= AverageFloat(v) <= hi
  {
    SumBounds(v, lo, hi);
    DivBounds(Sum(v), |v| as real, lo, hi);
  }

  /** The ceiling of a real, as an integer. */
  function Ceil(x: real): (c: int)
    ensures c as real - 1.0 < x <= c as real
  {
    -((-x).Floor)
  }

  /** The nearest rank for fraction `p` of `n` values, as a position clamped into [0, n - 1]. */
  function NearestRank(p: real, n: nat): (k: nat)
    requires 0 < n
    ensures k < n
  {
    var rank := Ceil(p * n as real) - 1;
    if rank < 0 then 0 else if rank >= n then n - 1 else rank
  }

  /**
    The nearest-rank percentile: 0 for an empty list, the minimum for `p <= 0`, the maximum for
    `p >= 1`, and otherwise the value at the nearest rank of a sorted copy.
   */
  function Percentile(values: seq<real>, p: real): (r: real)
    ensures values == [] ==> r == 0.0
    ensures values != [] ==> r in values
  {
    if values == [] then 0.0
    else if p <= 0.0 then MinFloat(values)
    else if p >= 1.0 then MaxFloat(values)
    else
      var sorted := SortAscending(values);
      SortAscendingSpec(values);
      assert sorted[NearestRank(p, |values|)] in multiset(values);
      sorted[NearestRank(p, |values|)]
  }

  /**
    For a fraction strictly between 0 and 1 the clamps never apply: the rank is the position `k`
    with `k < p * n <= k + 1`, so at least a fraction `p` of the sorted values lie at or before it.
   */
  lemma NearestRankExact(p: real, n: nat)
    requires 0 < n && 0.0 < p < 1.0
    ensures NearestRank(p, n) == Ceil(p * n as real) - 1
    ensures NearestRank(p, n) as real < p * n as real <= NearestRank(p, n) as real + 1.0
  {
    MulPos(p, n as real);
    MulStrict(n as real, p, 1.0);
  }

  /** The minimum and the maximum are the ends of the sorted copy. */
  lemma SortedEnds(values: seq<real>)
    requires values != []
    ensures MinFloat(values) == SortAscending(values)[0]
    ensures MaxFloat(values) == SortAscending(values)[|values| - 1]
  {
    var sorted := SortAscending(values);
    var last := |values| - 1;
    SortAscendingSpec(values);
    assert sorted[0] in multiset(values) && sorted[last] in multiset(values);
    var i :| 0 <= i < |values| && values[i] == sorted[0];
    var j :| 0 <= j < |values| && values[j] == sorted[last];
    assert MinOf(values) in multiset(sorted) && MaxOf(values) in multiset(sorted);
    var m :| 0 <= m < |sorted| && sorted[m] == MinOf(values);
    var n :| 0 <= n < |sorted| && sorted[n] == MaxOf(values);
    assert sorted[0] <= sorted[m] && sorted[n] <= sorted[last];
  }

  lemma NearestRankMonotone(p: real, q: real, n: nat)
    requires 0 < n && p <= q
    ensures NearestRank(p, n) <= NearestRank(q, n)
  {
    MulMonotone(n as real, p, q);
    CeilMonotone(p * n as real, q * n as real);
  }

  lemma CeilMonotone(x: real, y: real)
    requires x <= y
    ensures Ceil(x) <= Ceil(y)
  {
    assert (Ceil(x) - 1) as real < Ceil(y) as real;
  }

  /** A higher fraction never gives a lower percentile. */
  lemma PercentileMonotone(values: seq<real>, p: real, q: real)
    requires p <= q
    ensures Percentile(values, p) <= Percentile(values, q)
  {
    if values != [] {
      var n := |values|;
      var sorted := SortAscending(values);
      SortAscendingSpec(values);
      SortedEnds(values);
      var rp, rq := Percentile(values, p), Percentile(values, q);
      assert rp in multiset(sorted) && rq in multiset(sorted);
      if p <= 0.0 {
        assert rp == sorted[0];
      } else if q >= 1.0 {
        assert rq == sorted[n - 1];
      } else {
        NearestRankMonotone(p, q, n);
      }
    }
  }

  /** A one-element list gives its element for every fraction. */
  lemma PercentileSingle(x: real, p: real)
    ensures Percentile([x], p) == x
  {
  }
  /** Whether `y` is counted against `x`: below it when `strict`, otherwise at most it. */
  predicate Counted(y: real, x: real, strict: bool) {
    if strict then y < x else y <= x
  }

  /** How many values of `v` are below `x` (`strict`) or at most `x` (not `strict`). */
  function CountOf(v: seq<real>, x: real, strict: bool): (c: nat)
    ensures c <= |v|
  {
    if v == [] then 0 else CountOf(v[..|v| - 1], x, strict) + (if Counted(v[|v| - 1], x, strict) then 1 else 0)
  }

  lemma {:induction false} CountConcat(a: seq<real>, b: seq<real>, x: real, strict: bool)
    ensures CountOf(a + b, x, strict) == CountOf(a, x, strict) + CountOf(b, x, strict)
    decreases |b|
  {
    if b == [] {
      assert a + b == a;
    } else {
      var init := b[..|b| - 1];
      CountConcat(a, init, x, strict);
      assert (a + b)[..|a + b| - 1] == a + init;
    }
  }

  /** The count depends only on the values, not on their order. */
  lemma {:induction false} CountPermutation(a: seq<real>, b: seq<real>, x: real, strict: bool)
    requires multiset(a) == multiset(b)
    ensures CountOf(a, x, strict) == CountOf(b, x, strict)
    decreases |a|
  {
    if a == [] {
      assert |b| == |multiset(b)| == 0;
    } else {
      var last := a[|a| - 1];
      assert last in multiset(a);
      var j :| 0 <= j < |b| && b[j] == last;
      var rest := b[..j] + b[j + 1..];
      RemoveMatching(a, b, j);
      CountPermutation(a[..|a| - 1], rest, x, strict);
      CountWithout(b, j, x, strict);
    }
  }

  /** Taking the last value off `a` and an equal value off `b` keeps two permutations of each other. */
  lemma RemoveMatching(a: seq<real>, b: seq<real>, j: nat)
    requires multiset(a) == multiset(b) && a != [] && j < |b| && b[j] == a[|a| - 1]
    ensures multiset(a[..|a| - 1]) == multiset(b[..j] + b[j + 1..])
  {
    MultisetWithout(a, |a| - 1);
    assert a[|a| - 1 + 1..] == [];
    assert a[..|a| - 1] + a[|a| - 1 + 1..] == a[..|a| - 1];
    MultisetWithout(b, j);
    MultisetCancel(multiset(a[..|a| - 1]), multiset(b[..j] + b[j + 1..]), b[j]);
  }

  /** A sequence's multiset is that of the sequence without position `j`, plus `s[j]`. */
  lemma MultisetWithout(s: seq<real>, j: nat)
    requires j < |s|
    ensures multiset(s) == multiset(s[..j] + s[j + 1..]) + multiset{s[j]}
  {
    assert s == s[..j] + [s[j]] + s[j + 1..];
  }

  lemma MultisetCancel(x: multiset<real>, y: multiset<real>, e: real)
    requires x + multiset{e} == y + multiset{e}
    ensures x == y
  {
    forall z ensures x[z] == y[z] {
      assert (x + multiset{e})[z] == (y + multiset{e})[z];
    }
  }

  /** The count of `b` is that of `b` without position `j`, plus one when `b[j]` is counted. */
  lemma CountWithout(b: seq<real>, j: nat, x: real, strict: bool)
    requires j < |b|
    ensures CountOf(b, x, strict) == CountOf(b[..j] + b[j + 1..], x, strict) + (if Counted(b[j], x, strict) then 1 else 0)
  {
    assert b == b[..j] + ([b[j]] + b[j + 1..]);
    CountConcat(b[..j], [b[j]] + b[j + 1..], x, strict);
    CountConcat([b[j]], b[j + 1..], x, strict);
    CountConcat(b[..j], b[j + 1..], x, strict);
    assert [b[j]][..0] == [];
  }

  lemma {:induction false} CountEvery(v: seq<real>, x: real, strict: bool)
    requires forall i :: 0 <= i < |v| ==> Counted(v[i], x, strict)
    ensures CountOf(v, x, strict) == |v|
    decreases |v|
  {
    if v != [] {
      CountEvery(v[..|v| - 1], x, strict);
    }
  }

  lemma {:induction false} CountNone(v: seq<real>, x: real, strict: bool)
    requires forall i :: 0 <= i < |v| ==> !Counted(v[i], x, strict)
    ensures CountOf(v, x, strict) == 0
    decreases |v|
  {
    if v != [] {
      CountNone(v[..|v| - 1], x, strict);
    }
  }

  /** The percentile of a non-empty list is its minimum for `p <= 0` and its maximum for `p >= 1`. */
  lemma PercentileEnds(values: seq<real>, p: real)
    requires values != []
    ensures p <= 0.0 ==> Percentile(values, p) == MinOf(values)
    ensures p >= 1.0 ==> Percentile(values, p) == MaxOf(values)
  {
  }

  /**
    For `0 < p < 1` the percentile of a non-empty list of `n` values is a value `r` that at least
    `p * n` of the values are at most, while fewer than `p * n` values lie below it.
   */
  lemma PercentileNearestRank(values: seq<real>, p: real)
    requires values != [] && 0.0 < p < 1.0
    ensures p * |values| as real <= CountOf(values, Percentile(values, p), false) as real
    ensures (CountOf(values, Percentile(values, p), true) as real) < p * |values| as real
  {
    var k := NearestRank(p, |values|);
    PercentileIsRank(values, p);
    SortedCopyCounts(values, k);
    CountsAt(values, p, Percentile(values, p), k);
  }

  /** Strictly inside (0, 1) the percentile is the sorted copy's value at the nearest rank. */
  lemma PercentileIsRank(values: seq<real>, p: real)
    requires values != [] && 0.0 < p < 1.0
    ensures Percentile(values, p) == SortAscending(values)[NearestRank(p, |values|)]
  {}

  /** A value with more than `k` values at or below it and at most `k` below it, for the nearest rank `k`. */
  lemma CountsAt(values: seq<real>, p: real, r: real, k: nat)
    requires values != [] && 0.0 < p < 1.0 && k == NearestRank(p, |values|)
    requires k + 1 <= CountOf(values, r, false) && CountOf(values, r, true) <= k
    ensures p * |values| as real <= CountOf(values, r, false) as real
    ensures (CountOf(values, r, true) as real) < p * |values| as real
  {
    RankAt(p, |values|, k, CountOf(values, r, false), CountOf(values, r, true));
  }

  lemma RankAt(p: real, n: nat, k: nat, atMost: nat, below: nat)
    requires 0 < n && 0.0 < p < 1.0 && k == NearestRank(p, n) && k + 1 <= atMost && below <= k
    ensures p * n as real <= atMost as real && below as real < p * n as real
  {
    NearestRankExact(p, n);
    RankBounds(p * n as real, k, atMost, below);
  }

  /** At least `k + 1` values are at most the value at position `k` of the sorted copy, and at most `k` lie below it. */
  lemma SortedCopyCounts(values: seq<real>, k: nat)
    requires k < |values|
    ensures k + 1 <= CountOf(values, SortAscending(values)[k], false)
    ensures CountOf(values, SortAscending(values)[k], true) <= k
  {
    var sorted := SortAscending(values);
    SortAscendingSpec(values);
    CountPermutation(values, sorted, sorted[k], false);
    CountPermutation(values, sorted, sorted[k], true);
    SortedRankCounts(sorted, k);
  }

  lemma RankBounds(pn: real, k: nat, atMost: nat, below: nat)
    requires k as real < pn <= k as real + 1.0 && k + 1 <= atMost && below <= k
    ensures pn <= atMost as real && below as real < pn
  {
  }

  /** In a sorted list, at least `k + 1` values are at most the value at position `k`, and at most `k` lie below it. */
  lemma SortedRankCounts(sorted: seq<real>, k: nat)
    requires SortedAsc(sorted) && k < |sorted|
    ensures k + 1 <= CountOf(sorted, sorted[k], false)
    ensures CountOf(sorted, sorted[k], true) <= k
  {
    var r := sorted[k];
    var upTo, from := sorted[..k + 1], sorted[k..];
    forall i | 0 <= i < |upTo| ensures Counted(upTo[i], r, false) {
      assert upTo[i] == sorted[i];
    }
    forall i | 0 <= i < |from| ensures !Counted(from[i], r, true) {
      assert from[i] == sorted[k + i];
    }
    CountSplit(sorted, k + 1, r, false);
    CountEvery(upTo, r, false);
    CountSplit(sorted, k, r, true);
    CountNone(from, r, true);
  }

  lemma CountSplit(v: seq<real>, k: nat, x: real, strict: bool)
    requires k <= |v|
    ensures CountOf(v, x, strict) == CountOf(v[..k], x, strict) + CountOf(v[k..], x, strict)
  {
    assert v == v[..k] + v[k..];
    CountConcat(v[..k], v[k..], x, strict);
  }
}
