/**
  Ranking: a stable sort of the applicant array, highest priority first, ties on priority broken
  by the higher raw score, and applicants equal on both keys kept in their input order.
 */
module Ranking {
  import opened Applicants

  /** `x` ranks strictly ahead of `y`. */
  predicate Before(x: Applicant, y: Applicant) {
    if x.priority == y.priority then x.scoreRaw > y.scoreRaw else x.priority > y.priority
  }

  /** The two sort keys; applicants with equal keys are ties that a stable sort keeps in order. */
  function KeyOf(x: Applicant): (real, real) {
    (x.priority, x.scoreRaw)
  }

  /** No applicant ranks strictly ahead of one that precedes it. */
  predicate Ranked(s: seq<Applicant>) {
    forall i, j :: 0 <= i < j < |s| ==> !Before(s[j], s[i])
  }

  /** The applicants of `s` whose keys are `k`, in their order in `s`. */
  function WithKey(s: seq<Applicant>, k: (real, real)): seq<Applicant> {
    if s == [] then []
    else WithKey(s[..|s| - 1], k) + (if KeyOf(s[|s| - 1]) == k then [s[|s| - 1]] else [])
  }

  /**
    `x` placed into `s` by scanning from the end: it moves ahead of every trailing applicant it
    ranks strictly ahead of, and stops behind the first one it does not.
   */
  function Insert(s: seq<Applicant>, x: Applicant): (r: seq<Applicant>)
    ensures |r| == |s| + 1
    ensures multiset(r) == multiset(s) + multiset{x}
  {
    if s == [] || !Before(x, s[|s| - 1]) then s + [x]
    else
      var init := s[..|s| - 1];
      assert s == init + [s[|s| - 1]];
      Insert(init, x) + [s[|s| - 1]]
  }

  /** The rank order of `s`: insertion of each applicant, in input order, into the order so far. */
  function RankOrder(s: seq<Applicant>): (r: seq<Applicant>)
    ensures |r| == |s|
  {
    if s == [] then [] else Insert(RankOrder(s[..|s| - 1]), s[|s| - 1])
  }

  lemma NotBeforeTransitive(x: Applicant, y: Applicant, z: Applicant)
    requires !Before(x, y) && !Before(y, z)
    ensures !Before(x, z)
  {
  }

  lemma {:induction false} InsertRanked(s: seq<Applicant>, x: Applicant)
    requires Ranked(s)
    ensures Ranked(Insert(s, x))
    decreases |s|
  {
    if s == [] || !Before(x, s[|s| - 1]) {
      var r := s + [x];
      forall i, j | 0 <= i < j < |r|
        ensures !Before(r[j], r[i])
      {
        if j == |s| && i < |s| - 1 {
          NotBeforeTransitive(x, s[|s| - 1], s[i]);
        }
      }
    } else {
      var init := s[..|s| - 1];
      var last := s[|s| - 1];
      InsertRanked(init, x);
      var q := Insert(init, x);
      var r := q + [last];
      forall i | 0 <= i < |q|
        ensures !Before(last, q[i])
      {
        assert q[i] in multiset(q);
        assert q[i] in multiset(init) || q[i] == x;
        if q[i] != x {
          var k :| 0 <= k < |init| && init[k] == q[i];
          assert !Before(s[|s| - 1], s[k]);
        }
      }
      forall i, j | 0 <= i < j < |r|
        ensures !Before(r[j], r[i])
      {
        if j == |q| {
          assert r[j] == last && r[i] == q[i];
        } else {
          assert r[j] == q[j] && r[i] == q[i];
        }
      }
    }
  }

  /** The rank order is sorted: priority descending, then raw score descending. */
  lemma {:induction false} RankOrderRanked(s: seq<Applicant>)
    ensures Ranked(RankOrder(s))
    ensures forall i, j :: 0 <= i < j < |s| ==>
      RankOrder(s)[i].priority > RankOrder(s)[j].priority ||
      (RankOrder(s)[i].priority == RankOrder(s)[j].priority && RankOrder(s)[i].scoreRaw >= RankOrder(s)[j].scoreRaw)
    decreases |s|
  {
    if s != [] {
      RankOrderRanked(s[..|s| - 1]);
      InsertRanked(RankOrder(s[..|s| - 1]), s[|s| - 1]);
    }
  }

  /** The rank order is a permutation of the input. */
  lemma {:induction false} RankOrderPermutation(s: seq<Applicant>)
    ensures multiset(RankOrder(s)) == multiset(s)
    decreases |s|
  {
    if s != [] {
      RankOrderPermutation(s[..|s| - 1]);
      assert s == s[..|s| - 1] + [s[|s| - 1]];
    }
  }

  lemma {:induction false} InsertWithKey(s: seq<Applicant>, x: Applicant, k: (real, real))
    ensures WithKey(Insert(s, x), k) == WithKey(s, k) + (if KeyOf(x) == k then [x] else [])
    decreases |s|
  {
    if s == [] || !Before(x, s[|s| - 1]) {
      assert (s + [x])[..|s|] == s;
    } else {
      var init := s[..|s| - 1];
      var last := s[|s| - 1];
      InsertWithKey(init, x, k);
      var q := Insert(init, x);
      assert (q + [last])[..|q|] == q;
      assert KeyOf(x) != KeyOf(last);
    }
  }

  /**
    Stability: for every pair of keys, the applicants carrying it appear in the rank order in the
    same relative order as in the input.
   */
  lemma {:induction false} RankOrderStable(s: seq<Applicant>, k: (real, real))
    ensures WithKey(RankOrder(s), k) == WithKey(s, k)
    decreases |s|
  {
    if s != [] {
      RankOrderStable(s[..|s| - 1], k);
      InsertWithKey(RankOrder(s[..|s| - 1]), s[|s| - 1], k);
    }
  }

  /**
    Insertion from the end stops at the first position, scanning backwards, whose applicant `x`
    does not rank ahead of: when every applicant from `j` on ranks behind `x` and the one before
    `j` does not, `x` lands at `j`.
   */
  lemma {:induction false} InsertAt(s: seq<Applicant>, x: Applicant, j: nat)
    requires j <= |s|
    requires forall k :: j <= k < |s| ==> Before(x, s[k])
    requires j == 0 || !Before(x, s[j - 1])
    ensures Insert(s, x) == s[..j] + [x] + s[j..]
    decreases |s|
  {
    if j == |s| {
      assert s[..j] == s && s[j..] == [];
    } else {
      InsertAt(s[..|s| - 1], x, j);
      InsertAtStep(s, x, j);
    }
  }

  lemma InsertAtStep(s: seq<Applicant>, x: Applicant, j: nat)
    requires j < |s| && Before(x, s[|s| - 1])
    requires var init := s[..|s| - 1]; Insert(init, x) == init[..j] + [x] + init[j..]
    ensures Insert(s, x) == s[..j] + [x] + s[j..]
  {
    var init, last := s[..|s| - 1], s[|s| - 1];
    assert Insert(s, x) == Insert(init, x) + [last];
    assert init[..j] == s[..j];
    DropLastTail(s, j);
    assert s[..j] + [x] + init[j..] + [last] == s[..j] + [x] + (init[j..] + [last]);
  }

  lemma DropLastTail<T>(s: seq<T>, j: nat)
    requires j < |s|
    ensures s[..|s| - 1][j..] + [s[|s| - 1]] == s[j..]
  {
    var t := s[..|s| - 1][j..] + [s[|s| - 1]];
    assert |t| == |s[j..]|;
    forall k | 0 <= k < |t| ensures t[k] == s[j..][k] {
      if k < |t| - 1 {
        assert t[k] == s[j + k];
      }
    }
  }

  lemma {:induction false} WithKeyConcat(u: seq<Applicant>, v: seq<Applicant>, k: (real, real))
    ensures WithKey(u + v, k) == WithKey(u, k) + WithKey(v, k)
    decreases |v|
  {
    if v == [] {
      assert u + v == u;
    } else {
      var init := v[..|v| - 1];
      WithKeyConcat(u, init, k);
      assert (u + v)[..|u + v| - 1] == u + init;
    }
  }

  /** The position of the last applicant with key `k`; nothing after it has that key. */
  lemma {:induction false} LastWithKey(t: seq<Applicant>, k: (real, real)) returns (p: nat)
    requires WithKey(t, k) != []
    ensures p < |t| && KeyOf(t[p]) == k
    ensures t[p] == WithKey(t, k)[|WithKey(t, k)| - 1]
    ensures forall q :: p < q < |t| ==> KeyOf(t[q]) != k
    decreases |t|
  {
    if KeyOf(t[|t| - 1]) == k {
      p := |t| - 1;
    } else {
      p := LastWithKey(t[..|t| - 1], k);
    }
  }

  /**
    The rank order is the only arrangement of the input that is sorted and keeps every group of
    ties in input order: any stable sort by the same comparator produces exactly `RankOrder`.
   */
  lemma {:induction false} RankOrderUnique(s: seq<Applicant>, t: seq<Applicant>)
    requires Ranked(t)
    requires forall k :: WithKey(t, k) == WithKey(s, k)
    ensures t == RankOrder(s)
    decreases |s|
  {
    if s != [] {
      var init := s[..|s| - 1];
      var x := s[|s| - 1];
      var kx := KeyOf(x);
      assert WithKey(s, kx) == WithKey(init, kx) + [x];
      var p := LastWithKey(t, kx);
      var rest := t[..p] + t[p + 1..];
      forall k
        ensures WithKey(rest, k) == WithKey(init, k)
      {
        RemoveLastOfKey(t, p, k);
        var tail := if KeyOf(x) == k then [x] else [];
        assert WithKey(s, k) == WithKey(init, k) + tail;
        assert WithKey(rest, k) + tail == WithKey(init, k) + tail;
        assert (WithKey(rest, k) + tail)[..|WithKey(rest, k)|] == WithKey(rest, k);
        assert (WithKey(init, k) + tail)[..|WithKey(init, k)|] == WithKey(init, k);
      }
      RemoveKeepsRanked(t, p);
      RankOrderUnique(init, rest);
      InsertBack(t, p);
    } else if t != [] {
      LastHasKey(t);
      assert false;
    }
  }

  lemma LastHasKey(t: seq<Applicant>)
    requires t != []
    ensures WithKey(t, KeyOf(t[|t| - 1])) != []
  {
  }

  /** Dropping one applicant from a ranked sequence leaves it ranked. */
  lemma RemoveKeepsRanked(t: seq<Applicant>, p: nat)
    requires Ranked(t) && p < |t|
    ensures Ranked(t[..p] + t[p + 1..])
  {
    var rest := t[..p] + t[p + 1..];
    forall i, j | 0 <= i < j < |rest| ensures !Before(rest[j], rest[i]) {
      var ti := if i < p then i else i + 1;
      var tj := if j < p then j else j + 1;
      assert rest[i] == t[ti] && rest[j] == t[tj];
    }
  }

  /** Removing the last applicant with a given key removes it from that key's group only. */
  lemma RemoveLastOfKey(t: seq<Applicant>, p: nat, k: (real, real))
    requires p < |t|
    requires forall q :: p < q < |t| ==> KeyOf(t[q]) != KeyOf(t[p])
    ensures WithKey(t, k) == WithKey(t[..p] + t[p + 1..], k) + (if KeyOf(t[p]) == k then [t[p]] else [])
  {
    var before, x, after := t[..p], t[p], t[p + 1..];
    assert t == before + [x] + after;
    forall q | 0 <= q < |after| ensures KeyOf(after[q]) != KeyOf(x) {
      assert after[q] == t[p + 1 + q];
    }
    NoKeyEmpty(after, KeyOf(x));
    RemoveFromMiddle(before, x, after, k);
  }

  lemma RemoveFromMiddle(before: seq<Applicant>, x: Applicant, after: seq<Applicant>, k: (real, real))
    requires WithKey(after, KeyOf(x)) == []
    ensures WithKey(before + [x] + after, k) == WithKey(before + after, k) + (if KeyOf(x) == k then [x] else [])
  {
    WithKeyConcat(before + [x], after, k);
    WithKeyConcat(before, after, k);
    assert (before + [x])[..|before|] == before;
  }

  /**
    Inserting back the last applicant of its key group, taken out of a ranked sequence, restores the
    sequence: it ranks strictly ahead of everything after it (all of another key) and not ahead of
    the applicant before it.
   */
  lemma InsertBack(t: seq<Applicant>, p: nat)
    requires Ranked(t) && p < |t|
    requires forall q :: p < q < |t| ==> KeyOf(t[q]) != KeyOf(t[p])
    ensures Insert(t[..p] + t[p + 1..], t[p]) == t
  {
    var x := t[p];
    var rest := t[..p] + t[p + 1..];
    forall q | p <= q < |rest| ensures Before(x, rest[q]) {
      assert rest[q] == t[q + 1];
      assert !Before(t[q + 1], t[p]);
    }
    if p > 0 {
      assert rest[p - 1] == t[p - 1];
      assert !Before(t[p], t[p - 1]);
    }
    InsertAt(rest, x, p);
    assert rest[..p] == t[..p] && rest[p..] == t[p + 1..];
    assert t == t[..p] + [x] + t[p + 1..];
  }

  lemma {:induction false} NoKeyEmpty(u: seq<Applicant>, k: (real, real))
    requires forall q :: 0 <= q < |u| ==> KeyOf(u[q]) != k
    ensures WithKey(u, k) == []
    decreases |u|
  {
    if u != [] {
      NoKeyEmpty(u[..|u| - 1], k);
    }
  }

  lemma RankOrderNext(s: seq<Applicant>, i: nat)
    requires i < |s|
    ensures RankOrder(s[..i + 1]) == Insert(RankOrder(s[..i]), s[i])
  {
    assert s[..i + 1][..i] == s[..i];
  }

  /**
    Sorts the applicant array in place into rank order (an insertion sort: each applicant is moved
    ahead past the applicants it ranks strictly ahead of, so ties keep their input order).
   */
  method SortApplicants(a: array<Applicant>)
    modifies a
    ensures a[..] == RankOrder(old(a[..]))
  {
    ghost var input := a[..];
    for i := 0 to a.Length
      invariant a[..i] == RankOrder(input[..i])
      invariant a[i..] == input[i..]
    {
      assert a[i] == input[i] by {
        assert a[i..][0] == a[i] && input[i..][0] == input[i];
      }
      ghost var rest := a[i + 1..];
      assert rest == input[i + 1..] by {
        assert rest == a[i..][1..] && input[i + 1..] == input[i..][1..];
      }
      InsertLast(a, i);
      RankOrderNext(input, i);
    }
    assert input[..a.Length] == input && a[..a.Length] == a[..];
  }

  /** A sequence that agrees with `s` before `j`, holds `x` at `j` and `s` shifted one place after it is `Insert(s, x)`. */
  lemma ShiftedIsInsert(s: seq<Applicant>, x: Applicant, j: nat, b: seq<Applicant>)
    requires j <= |s| && |b| == |s| + 1 && b[j] == x
    requires forall k :: 0 <= k < j ==> b[k] == s[k]
    requires forall k :: j < k < |b| ==> b[k] == s[k - 1]
    requires forall k :: j <= k < |s| ==> Before(x, s[k])
    requires j == 0 || !Before(x, s[j - 1])
    ensures b == Insert(s, x)
  {
    InsertAt(s, x, j);
    ghost var placed := s[..j] + [x] + s[j..];
    forall k | 0 <= k < |b| ensures b[k] == placed[k] {
      if k < j {
        assert placed[k] == s[k];
      } else if j < k {
        assert placed[k] == s[k - 1];
      }
    }
  }

  /** Moves `a[i]` ahead into the ranked prefix `a[..i]`, leaving the suffix after `i` alone. */
  method InsertLast(a: array<Applicant>, i: nat)
    requires i < a.Length
    modifies a
    ensures a[..i + 1] == Insert(old(a[..i]), old(a[i]))
    ensures a[i + 1..] == old(a[i + 1..])
  {
    ghost var sorted := a[..i];
    var x := a[i];
    var j := i;
    while j > 0 && Before(x, a[j - 1])
      invariant 0 <= j <= i
      invariant forall k :: 0 <= k < j ==> a[k] == sorted[k]
      invariant forall k :: j < k <= i ==> a[k] == sorted[k - 1]
      invariant forall k :: i < k < a.Length ==> a[k] == old(a[k])
      invariant forall k :: j <= k < i ==> Before(x, sorted[k])
    {
      a[j] := a[j - 1];
      j := j - 1;
    }
    a[j] := x;
    ShiftedIsInsert(sorted, x, j, a[..i + 1]);
  }
}
