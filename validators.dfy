/**
  Two small validators: the database schema name check, and the ordering of the ineligibility
  reasons for the report (most frequent first, ties by reason text).
 */
module Validators {
  import opened Applicants

  datatype Result<T> = Ok(value: T) | Err(msg: string)

  const EmptySchema: string := "schema must not be empty"
  const InvalidSchemaPrefix: string := "invalid schema name: "

  // ---------------------------------------------------------------------------------------------
  // Schema names.

  /** A character allowed in a schema name: a lower-case ASCII letter, `_`, or a digit when not first. */
  predicate IdentifierChar(c: char, first: bool) {
    ('a' <= c <= 'z') || c == '_' || ('0' <= c <= '9' && !first)
  }

  /** A non-empty name made of allowed characters only. */
  predicate IsIdentifier(s: string) {
    s != [] && forall i :: 0 <= i < |s| ==> IdentifierChar(s[i], i == 0)
  }

  /** The scan over the lower-cased name, from position `i`: true when no character is rejected. */
  function AcceptedFrom(s: string, i: nat): bool
    decreases |s| - i
  {
    i >= |s| || (IdentifierChar(s[i], i == 0) && AcceptedFrom(s, i + 1))
  }

  lemma {:induction false} AcceptedFromSpec(s: string, i: nat)
    ensures AcceptedFrom(s, i) <==> forall k :: i <= k < |s| ==> IdentifierChar(s[k], k == 0)
    decreases |s| - i
  {
    if i < |s| {
      AcceptedFromSpec(s, i + 1);
    }
  }

  /**
    The schema name check: the empty name is refused; otherwise the name is lower-cased and kept
    when every character is allowed, and refused with the lower-cased name in the message when not.
   */
  function SanitizeIdentifier(value: string): (r: Result<string>)
    ensures value == [] ==> r == Err(EmptySchema)
    ensures r.Ok? <==> IsIdentifier(ToLower(value))
    ensures r.Ok? ==> r.value == ToLower(value)
    ensures value != [] && r.Err? ==> r.msg == InvalidSchemaPrefix + ToLower(value)
  {
    if value == [] then Err(EmptySchema)
    else
      var lower := ToLower(value);
      AcceptedFromSpec(lower, 0);
      if AcceptedFrom(lower, 0) then Ok(lower) else Err(InvalidSchemaPrefix + lower)
  }

  /** Lower-casing twice is lower-casing once. */
  lemma ToLowerIdempotent(s: string)
    ensures ToLower(ToLower(s)) == ToLower(s)
  {
  }

  /**
    An accepted name is its own sanitised form: it has no upper-case letter, does not start with a
    digit, and holds only letters, digits and `_`.
   */
  lemma SanitizeIdempotent(value: string)
    requires SanitizeIdentifier(value).Ok?
    ensures var name := SanitizeIdentifier(value).value;
      && SanitizeIdentifier(name) == Ok(name)
      && !('0' <= name[0] <= '9')
      && forall i :: 0 <= i < |name| ==> ('a' <= name[i] <= 'z') || name[i] == '_' || ('0' <= name[i] <= '9')
  {
    ToLowerIdempotent(value);
  }

  /** The check does not see case: a name and its lower-cased form are treated alike. */
  lemma SanitizeIgnoresCase(value: string)
    ensures SanitizeIdentifier(ToLower(value)) == SanitizeIdentifier(value)
  {
    ToLowerIdempotent(value);
  }

  /** A mixed-case name with a digit after the first character is accepted in lower case. */
  lemma SanitizeAcceptsExample()
    ensures SanitizeIdentifier("Run_2") == Ok("run_2")
  {
    assert ToLower("Run_2") == "run_2";
  }

  /** A leading digit and a dot are refused, and so is the empty name. */
  lemma SanitizeRefusesExamples()
    ensures SanitizeIdentifier("2a") == Err(InvalidSchemaPrefix + "2a")
    ensures SanitizeIdentifier("a.b") == Err(InvalidSchemaPrefix + "a.b")
    ensures SanitizeIdentifier("") == Err(EmptySchema)
  {
    assert ToLower("2a") == "2a";
    assert ToLower("a.b") == "a.b";
    assert !IdentifierChar("2a"[0], true);
    assert !IdentifierChar("a.b"[1], false);
  }

  // ---------------------------------------------------------------------------------------------
  // The reason summary.

  datatype ReasonSummary = ReasonSummary(reason: string, count: int)

  /** Byte-wise lexicographic order on strings, as Go's `<` on strings: a proper prefix comes first. */
  predicate StringLess(a: string, b: string)
    decreases |a|
  {
    b != [] && (a == [] || a[0] < b[0] || (a[0] == b[0] && StringLess(a[1..], b[1..])))
  }

  lemma {:induction false} StringLessIrreflexive(a: string)
    ensures !StringLess(a, a)
    decreases |a|
  {
    if a != [] {
      StringLessIrreflexive(a[1..]);
    }
  }

  lemma {:induction false} StringLessAsymmetric(a: string, b: string)
    requires StringLess(a, b)
    ensures !StringLess(b, a)
    decreases |a|
  {
    if a != [] && a[0] == b[0] {
      StringLessAsymmetric(a[1..], b[1..]);
    }
  }

  lemma {:induction false} StringLessTransitive(a: string, b: string, c: string)
    requires StringLess(a, b) && StringLess(b, c)
    ensures StringLess(a, c)
    decreases |a|
  {
    if a != [] && a[0] == b[0] && b[0] == c[0] {
      StringLessTransitive(a[1..], b[1..], c[1..]);
    }
  }

  lemma {:induction false} StringLessTotal(a: string, b: string)
    requires a != b
    ensures StringLess(a, b) || StringLess(b, a)
    decreases |a|
  {
    if a != [] && b != [] && a[0] == b[0] {
      assert a == [a[0]] + a[1..] && b == [b[0]] + b[1..];
      StringLessTotal(a[1..], b[1..]);
    }
  }

  /** `x` is listed before `y`: a higher count first, and for equal counts the smaller reason. */
  predicate ReasonBefore(x: ReasonSummary, y: ReasonSummary) {
    x.count > y.count || (x.count == y.count && StringLess(x.reason, y.reason))
  }

  lemma ReasonBeforeAsymmetric(x: ReasonSummary, y: ReasonSummary)
    requires ReasonBefore(x, y)
    ensures !ReasonBefore(y, x) && x != y
  {
    if x.count == y.count {
      StringLessAsymmetric(x.reason, y.reason);
    }
  }

  lemma ReasonBeforeTransitive(x: ReasonSummary, y: ReasonSummary, z: ReasonSummary)
    requires ReasonBefore(x, y) && ReasonBefore(y, z)
    ensures ReasonBefore(x, z)
  {
    if x.count == y.count == z.count {
      StringLessTransitive(x.reason, y.reason, z.reason);
    }
  }

  /** Two entries with different reasons are ordered one way or the other. */
  lemma ReasonBeforeTotal(x: ReasonSummary, y: ReasonSummary)
    requires x.reason != y.reason
    ensures ReasonBefore(x, y) || ReasonBefore(y, x)
  {
    StringLessTotal(x.reason, y.reason);
  }

  predicate ReasonsOrdered(list: seq<ReasonSummary>) {
    forall i, j :: 0 <= i < j < |list| ==> ReasonBefore(list[i], list[j])
  }

  /** No reason is listed twice. */
  predicate DistinctReasons(list: seq<ReasonSummary>) {
    forall i, j :: 0 <= i < j < |list| ==> list[i].reason != list[j].reason
  }

  /** `list` holds one entry per key of `reasons`, with that key's count, and nothing else. */
  predicate ListsReasons(reasons: map<string, int>, list: seq<ReasonSummary>) {
    && |list| == |reasons|
    && DistinctReasons(list)
    && (forall i :: 0 <= i < |list| ==> list[i].reason in reasons && list[i].count == reasons[list[i].reason])
    && (forall k :: k in reasons ==> exists i :: 0 <= i < |list| && list[i].reason == k)
  }

  /** `x` placed in front of the first entry it does not come after. */
  function InsertReason(list: seq<ReasonSummary>, x: ReasonSummary): (r: seq<ReasonSummary>)
    ensures multiset(r) == multiset(list) + multiset{x}
  {
    if list == [] || ReasonBefore(x, list[0]) then [x] + list
    else
      assert list == [list[0]] + list[1..];
      [list[0]] + InsertReason(list[1..], x)
  }

  /** The entries in report order. */
  function OrderReasons(list: seq<ReasonSummary>): (r: seq<ReasonSummary>)
    ensures multiset(r) == multiset(list)
  {
    if list == [] then []
    else
      assert list == [list[0]] + list[1..];
      InsertReason(OrderReasons(list[1..]), list[0])
  }

  lemma {:induction false} InsertReasonOrdered(list: seq<ReasonSummary>, x: ReasonSummary)
    requires ReasonsOrdered(list)
    requires forall i :: 0 <= i < |list| ==> list[i].reason != x.reason
    ensures ReasonsOrdered(InsertReason(list, x))
    decreases |list|
  {
    if list == [] {
    } else if ReasonBefore(x, list[0]) {
      var r := [x] + list;
      forall i, j | 0 <= i < j < |r| ensures ReasonBefore(r[i], r[j]) {
        if i == 0 && j > 1 {
          ReasonBeforeTransitive(x, list[0], list[j - 1]);
        }
      }
    } else {
      var tail := list[1..];
      InsertReasonOrdered(tail, x);
      ReasonBeforeTotal(x, list[0]);
      var q := InsertReason(tail, x);
      forall j | 0 <= j < |q| ensures ReasonBefore(list[0], q[j]) {
        assert q[j] in multiset(q);
        if q[j] != x {
          assert q[j] in multiset(tail);
          var k :| 0 <= k < |tail| && tail[k] == q[j];
          assert list[k + 1] == q[j];
        }
      }
      var r := [list[0]] + q;
      assert r == InsertReason(list, x);
      forall i, j | 0 <= i < j < |r| ensures ReasonBefore(r[i], r[j]) {
        if i > 0 {
          assert r[i] == q[i - 1] && r[j] == q[j - 1];
        }
      }
    }
  }

  /** With no reason listed twice, the ordering is strict: every entry comes before every later one. */
  lemma {:induction false} OrderReasonsOrdered(list: seq<ReasonSummary>)
    requires DistinctReasons(list)
    ensures ReasonsOrdered(OrderReasons(list))
    decreases |list|
  {
    if list != [] {
      var tail := list[1..];
      var sorted := OrderReasons(tail);
      OrderReasonsOrdered(tail);
      forall i | 0 <= i < |sorted| ensures sorted[i].reason != list[0].reason {
        assert sorted[i] in multiset(tail);
        var k :| 0 <= k < |tail| && tail[k] == sorted[i];
        assert list[k + 1] == sorted[i];
      }
      InsertReasonOrdered(sorted, list[0]);
    }
  }

  /**
    Two strictly ordered lists with the same entries are the same list: the report order does not
    depend on the order in which the reasons were collected.
   */
  lemma {:induction false} OrderedUnique(a: seq<ReasonSummary>, b: seq<ReasonSummary>)
    requires ReasonsOrdered(a) && ReasonsOrdered(b)
    requires |a| == |b| && forall x :: x in a <==> x in b
    ensures a == b
    decreases |a|
  {
    if a != [] {
      assert a[0] in b;
      assert b != [];
      assert b[0] in a;
      if a[0] != b[0] {
        var i :| 0 <= i < |a| && a[i] == b[0];
        var j :| 0 <= j < |b| && b[j] == a[0];
        assert ReasonBefore(a[0], b[0]);
        assert ReasonBefore(b[0], a[0]);
        ReasonBeforeAsymmetric(a[0], b[0]);
      }
      forall x ensures x in a[1..] <==> x in b[1..] {
        if x in a[1..] {
          var i :| 1 <= i < |a| && a[i] == x;
          ReasonBeforeAsymmetric(a[0], a[i]);
          assert x in b;
          var j :| 0 <= j < |b| && b[j] == x;
          assert j != 0;
        }
        if x in b[1..] {
          var j :| 1 <= j < |b| && b[j] == x;
          ReasonBeforeAsymmetric(b[0], b[j]);
          assert x in a;
          var i :| 0 <= i < |a| && a[i] == x;
          assert i != 0;
        }
      }
      OrderedUnique(a[1..], b[1..]);
      assert a == [a[0]] + a[1..] && b == [b[0]] + b[1..];
    }
  }

  /** One entry per reason with its count, in whatever order the map is walked. */
  method CollectReasons(reasons: map<string, int>) returns (list: seq<ReasonSummary>)
    ensures ListsReasons(reasons, list)
  {
    list := [];
    var todo := reasons.Keys;
    while todo != {}
      invariant todo <= reasons.Keys
      invariant |list| + |todo| == |reasons.Keys|
      invariant DistinctReasons(list)
      invariant forall i :: 0 <= i < |list| ==>
        list[i].reason in reasons && list[i].reason !in todo && list[i].count == reasons[list[i].reason]
      invariant forall k :: k in reasons && k !in todo ==> exists i :: 0 <= i < |list| && list[i].reason == k
      decreases |todo|
    {
      var reason :| reason in todo;
      ghost var before := list;
      list := list + [ReasonSummary(reason, reasons[reason])];
      todo := todo - {reason};
      forall k | k in reasons && k !in todo ensures exists i :: 0 <= i < |list| && list[i].reason == k {
        if k == reason {
          assert list[|list| - 1].reason == k;
        } else {
          var i :| 0 <= i < |before| && before[i].reason == k;
          assert list[i] == before[i];
        }
      }
    }
    assert |reasons.Keys| == |reasons|;
  }

  /** Putting the collected entries in report order keeps them and orders them strictly. */
  lemma OrderReasonsLists(reasons: map<string, int>, collected: seq<ReasonSummary>)
    requires ListsReasons(reasons, collected)
    ensures ListsReasons(reasons, OrderReasons(collected))
    ensures ReasonsOrdered(OrderReasons(collected))
  {
    var list := OrderReasons(collected);
    OrderReasonsOrdered(collected);
    assert |list| == |multiset(list)| == |multiset(collected)| == |collected|;
    forall i | 0 <= i < |list|
      ensures list[i].reason in reasons && list[i].count == reasons[list[i].reason]
    {
      assert list[i] in multiset(collected);
    }
    forall k | k in reasons ensures exists i :: 0 <= i < |list| && list[i].reason == k {
      var j :| 0 <= j < |collected| && collected[j].reason == k;
      assert collected[j] in multiset(list);
    }
    forall i, j | 0 <= i < j < |list| ensures list[i].reason != list[j].reason {
      StringLessIrreflexive(list[i].reason);
    }
  }

  /**
    The reason counts as a list: one entry per reason with its count, most frequent first, and
    reasons with equal counts in ascending order.
   */
  method SortReasonSummary(reasons: map<string, int>) returns (list: seq<ReasonSummary>)
    ensures ListsReasons(reasons, list)
    ensures ReasonsOrdered(list)
  {
    var collected := CollectReasons(reasons);
    list := OrderReasons(collected);
    OrderReasonsLists(reasons, collected);
  }

  /** Any two lists of the same reason counts in report order are equal. */
  lemma ReasonSummaryUnique(reasons: map<string, int>, a: seq<ReasonSummary>, b: seq<ReasonSummary>)
    requires ListsReasons(reasons, a) && ReasonsOrdered(a)
    requires ListsReasons(reasons, b) && ReasonsOrdered(b)
    ensures a == b
  {
    forall x ensures x in a <==> x in b {
      if x in a {
        var i :| 0 <= i < |a| && a[i] == x;
        var j :| 0 <= j < |b| && b[j].reason == x.reason;
      }
      if x in b {
        var j :| 0 <= j < |b| && b[j] == x;
        var i :| 0 <= i < |a| && a[i].reason == x.reason;
      }
    }
    OrderedUnique(a, b);
  }
}
