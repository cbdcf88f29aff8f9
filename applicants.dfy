/**
  The applicant record, the three need tiers, and the eligibility bookkeeping that is
  done when a record is built and when the minimum-score threshold is applied.
 */
module Applicants {

  /** One applicant. `awarded` starts at 0 and is written by the allocator. */
  datatype Applicant = Applicant(
    id: string,
    name: string,
    needLevel: string,
    scoreRaw: real,
    scoreNorm: real,
    requested: real,
    priority: real,
    awarded: real,
    eligible: bool,
    eligibilityMsg: string)

  const High: string := "high"
  const Medium: string := "medium"
  const Low: string := "low"

  /** The messages recorded when a record fails a structural check. */
  const RequestNotPositive: string := "requested_amount must be > 0"
  const InvalidNeedLevel: string := "need_level must be low, medium, or high"

  /** Separator between two accumulated reasons. */
  const ReasonSeparator: string := "; "

  predicate IsTier(level: string) {
    level == Low || level == Medium || level == High
  }

  /** ASCII lower-casing of one character. */
  function LowerChar(c: char): (d: char)
    ensures 'A' <= c <= 'Z' ==> 'a' <= d <= 'z'
    ensures !('A' <= c <= 'Z') ==> d == c
  {
    if 'A' <= c <= 'Z' then (c as int + 32) as char else c
  }

  /** ASCII lower-casing of a string. */
  function ToLower(s: string): (r: string)
    ensures |r| == |s|
    ensures forall i :: 0 <= i < |s| ==> r[i] == LowerChar(s[i])
  {
    if s == [] then [] else [LowerChar(s[0])] + ToLower(s[1..])
  }

  /**
    The need-tier base value used in priority blending: high 1, medium 0.5, low 0, and 0 for
    anything else; the level is lower-cased first.
   */
  function NeedScore(level: string): (r: real)
    ensures 0.0 <= r <= 1.0
    ensures r == 1.0 <==> ToLower(level) == High
    ensures r == 0.5 <==> ToLower(level) == Medium
    ensures r == 0.0 <==> ToLower(level) != High && ToLower(level) != Medium
  {
    var lower := ToLower(level);
    if lower == High then 1.0
    else if lower == Medium then 0.5
    else if lower == Low then 0.0
    else 0.0
  }

  /** Every base value lies in [0, 1]. */
  lemma NeedScoreUnit(level: string)
    ensures 0.0 <= NeedScore(level) <= 1.0
  {
  }

  /** A higher tier never has a lower base value. */
  lemma NeedScoreOrdered()
    ensures NeedScore(High) > NeedScore(Medium) > NeedScore(Low) == 0.0
  {
    assert ToLower(High) == High;
    assert ToLower(Medium) == Medium;
    assert ToLower(Low) == Low;
  }

  /**
    Clears the eligibility flag and records `message`, after the earlier reasons if any.
    Nothing but the flag and the reason text changes.
   */
  function MarkIneligible(x: Applicant, message: string): (r: Applicant)
    ensures !r.eligible
    ensures r == x.(eligible := false, eligibilityMsg := r.eligibilityMsg)
    ensures |r.eligibilityMsg| >= |message|
    ensures r.eligibilityMsg[|r.eligibilityMsg| - |message|..] == message
    ensures x.eligibilityMsg != "" ==> x.eligibilityMsg + ReasonSeparator <= r.eligibilityMsg
  {
    if x.eligibilityMsg == "" then x.(eligible := false, eligibilityMsg := message)
    else x.(eligible := false, eligibilityMsg := x.eligibilityMsg + ReasonSeparator + message)
  }

  /** The reasons joined with the separator, first reason first. */
  function JoinReasons(reasons: seq<string>): (r: string)
    ensures reasons == [] ==> r == ""
    ensures |reasons| == 1 ==> r == reasons[0]
  {
    if reasons == [] then ""
    else if |reasons| == 1 then reasons[0]
    else reasons[0] + ReasonSeparator + JoinReasons(reasons[1..])
  }

  /** Marks `x` ineligible once per reason, in order. */
  function MarkAll(x: Applicant, reasons: seq<string>): Applicant
    decreases |reasons|
  {
    if reasons == [] then x else MarkIneligible(MarkAll(x, reasons[..|reasons| - 1]), reasons[|reasons| - 1])
  }

  lemma {:induction false} JoinReasonsSnoc(reasons: seq<string>, last: string)
    requires reasons != []
    ensures JoinReasons(reasons + [last]) == JoinReasons(reasons) + ReasonSeparator + last
    decreases |reasons|
  {
    if |reasons| == 1 {
      assert reasons + [last] == [reasons[0], last];
      assert [reasons[0], last][1..] == [last];
    } else {
      assert (reasons + [last])[1..] == reasons[1..] + [last];
      JoinReasonsSnoc(reasons[1..], last);
    }
  }

  /**
    Marking a record that has no reason yet with several non-empty reasons leaves exactly
    those reasons joined by "; ", and the record ineligible as soon as one reason is given.
   */
  lemma {:induction false} MarkIneligibleJoins(x: Applicant, reasons: seq<string>)
    requires x.eligibilityMsg == ""
    requires forall k :: 0 <= k < |reasons| ==> reasons[k] != ""
    ensures MarkAll(x, reasons).eligibilityMsg == JoinReasons(reasons)
    ensures MarkAll(x, reasons).eligible <==> (x.eligible && reasons == [])
    decreases |reasons|
  {
    if reasons != [] {
      var init, last := reasons[..|reasons| - 1], reasons[|reasons| - 1];
      MarkIneligibleJoins(x, init);
      LastSplit(reasons);
      MarkJoinStep(MarkAll(x, init), init, last);
    }
  }

  lemma LastSplit(reasons: seq<string>)
    requires reasons != []
    ensures reasons == reasons[..|reasons| - 1] + [reasons[|reasons| - 1]]
  {
  }

  /** One more reason appended to a record whose text is the join of the earlier ones. */
  lemma MarkJoinStep(m: Applicant, init: seq<string>, last: string)
    requires m.eligibilityMsg == JoinReasons(init)
    requires init != [] ==> init[0] != ""
    ensures MarkIneligible(m, last).eligibilityMsg == JoinReasons(init + [last])
  {
    if init == [] {
      assert init + [last] == [last];
    } else {
      if |init| > 1 {
        assert JoinReasons(init) == init[0] + ReasonSeparator + JoinReasons(init[1..]);
      }
      assert m.eligibilityMsg != "";
      JoinReasonsSnoc(init, last);
    }
  }

  /** The structural problems of a record, in the order they are checked. */
  function StructuralProblems(needLevel: string, requested: real): (r: seq<string>)
    ensures r == [] <==> requested > 0.0 && IsTier(needLevel)
    ensures forall k :: 0 <= k < |r| ==> r[k] != ""
  {
    (if requested <= 0.0 then [RequestNotPositive] else [])
    + (if !IsTier(needLevel) then [InvalidNeedLevel] else [])
  }

  /** The joined text of the structural problems, case by case. */
  lemma StructuralReasons(needLevel: string, requested: real)
    ensures JoinReasons(StructuralProblems(needLevel, requested)) ==
      if requested <= 0.0 && !IsTier(needLevel) then RequestNotPositive + ReasonSeparator + InvalidNeedLevel
      else if requested <= 0.0 then RequestNotPositive
      else if !IsTier(needLevel) then InvalidNeedLevel
      else ""
  {
    var both := [RequestNotPositive, InvalidNeedLevel];
    assert both[1..] == [InvalidNeedLevel];
  }

  /**
    A record built from already-parsed fields (the need level already lower-cased): eligible
    exactly when the request is positive and the tier is valid, otherwise carrying every failed
    check's message joined by "; "; not yet scored, prioritised or funded.
   */
  function NewApplicant(id: string, name: string, needLevel: string, scoreRaw: real, requested: real): (r: Applicant)
    ensures r.eligible <==> requested > 0.0 && IsTier(needLevel)
    ensures r.eligibilityMsg == JoinReasons(StructuralProblems(needLevel, requested))
    ensures r.awarded == 0.0 && r.scoreNorm == 0.0 && r.priority == 0.0
    ensures r.id == id && r.name == name && r.needLevel == needLevel
    ensures r.scoreRaw == scoreRaw && r.requested == requested
  {
    var blank := Applicant(id, name, needLevel, scoreRaw, 0.0, requested, 0.0, 0.0, true, "");
    var afterRequest := if requested <= 0.0 then MarkIneligible(blank, RequestNotPositive) else blank;
    var r := if !IsTier(needLevel) then MarkIneligible(afterRequest, InvalidNeedLevel) else afterRequest;
    StructuralReasons(needLevel, requested);
    r
  }
}
