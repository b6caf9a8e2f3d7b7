/**
The arithmetic of the quality gates: which checks a case fails, its score, and the rates over all cases.
Numbers are exact rationals.
*/
module QualityGate {
  import opened Wrappers
  import opened Text
  import opened Counting

  // ---------------------------------------------------------------------------------------------
  // Rounding to four digits.

  /** The integer that `toFixed(4)` prints, without the point, for a number that is not negative. */
  function Fixed4(x: real): int {
    (x * 10000.0 + 0.5).Floor
  }

  function Rounded(x: real): real {
    Fixed4(x) as real / 10000.0
  }

  function Distance(x: real, n: int): real {
    var d := n as real / 10000.0 - x;
    if d < 0.0 then -d else d
  }

  /** Section 21.1.3.3 of ECMA-262: the closest integer, and of two equally close ones the larger. */
  lemma Fixed4IsClosest(x: real, n: int)
    ensures Distance(x, Fixed4(x)) <= Distance(x, n)
    ensures Distance(x, n) == Distance(x, Fixed4(x)) ==> n <= Fixed4(x)
  {
    var k := Fixed4(x);
    assert k as real <= x * 10000.0 + 0.5 < k as real + 1.0;
    if n > k {
      assert n as real >= k as real + 1.0;
    } else if n < k {
      assert n as real <= k as real - 1.0;
    }
  }

  lemma RoundedBounds(x: real)
    ensures 0.0 <= x <= 1.0 ==> 0.0 <= Rounded(x) <= 1.0
    ensures x == 1.0 ==> Rounded(x) == 1.0
    ensures x <= 1.0 ==> (Rounded(x) == 1.0 <==> x >= 0.99995)
  {
    var k := Fixed4(x);
    assert k as real <= x * 10000.0 + 0.5 < k as real + 1.0;
  }

  // ---------------------------------------------------------------------------------------------
  // The checks of one case.

  datatype GoldenCase = GoldenCase(
    expectedQualityPassed: bool,
    expectedQualityReason: string,       // empty when no reason is expected
    expectedClassifiedIntent: string,
    expectedLeadStatus: string,
    expectedConversationStatus: string,
    expectedTools: seq<string>,
    forbiddenTools: seq<string>,
    expectedBookingDraft: bool,
    expectedHandoffTask: bool,
    mustRetrieveTerms: seq<string>)

  datatype Observed = Observed(
    qualityPassed: Option<bool>,
    qualityReason: Option<string>,
    classifiedIntent: Option<string>,
    leadStatus: string,
    conversationStatus: string,
    tools: seq<string>,
    booking: bool,
    task: bool,
    usage: bool,
    contextText: string)

  datatype Failure =
    | QualityPassed | QualityReason | ClassifiedIntent | LeadStatus | ConversationStatus
    | MissingTool(tool: string) | ForbiddenTool(tool: string)
    | BookingDraft | HandoffTask | UsageLog | MissingTerms

  /** Which gate: the real-provider evaluation does not check the classified intent and declares one more check. */
  datatype Gate = Golden | RealProvider

  function LowerAll(lower: char -> char, s: string): (r: string)
    ensures |r| == |s| && forall i :: 0 <= i < |s| ==> r[i] == lower(s[i])
  {
    if s == [] then [] else [lower(s[0])] + LowerAll(lower, s[1..])
  }

  predicate RetrievedAll(lower: char -> char, terms: seq<string>, text: string) {
    forall i :: 0 <= i < |terms| ==> Contains(LowerAll(lower, text), LowerAll(lower, terms[i]))
  }

  /** What a case must show to pass. */
  predicate Meets(gate: Gate, lower: char -> char, c: GoldenCase, o: Observed) {
    && o.qualityPassed == Some(c.expectedQualityPassed)
    && (c.expectedQualityReason != "" ==> o.qualityReason == Some(c.expectedQualityReason))
    && (gate.Golden? ==> o.classifiedIntent == Some(c.expectedClassifiedIntent))
    && o.leadStatus == c.expectedLeadStatus
    && o.conversationStatus == c.expectedConversationStatus
    && (forall i :: 0 <= i < |c.expectedTools| ==> c.expectedTools[i] in o.tools)
    && (forall i :: 0 <= i < |c.forbiddenTools| ==> c.forbiddenTools[i] !in o.tools)
    && o.booking == c.expectedBookingDraft
    && o.task == c.expectedHandoffTask
    && o.usage
    && RetrievedAll(lower, c.mustRetrieveTerms, o.contextText)
  }

  function TotalChecks(gate: Gate, c: GoldenCase): nat {
    (if gate.Golden? then 8 else 9) + |c.expectedTools| + |c.forbiddenTools|
    + (if c.expectedQualityReason != "" then 1 else 0) + (if |c.mustRetrieveTerms| > 0 then 1 else 0)
  }

  function Check(condition: bool, failure: Failure): seq<Failure> {
    if condition then [] else [failure]
  }

  function Missing(expected: seq<string>, tools: seq<string>): seq<Failure> {
    if expected == [] then [] else Check(expected[0] in tools, MissingTool(expected[0])) + Missing(expected[1..], tools)
  }

  function Forbidden(forbidden: seq<string>, tools: seq<string>): seq<Failure> {
    if forbidden == [] then []
    else Check(forbidden[0] !in tools, ForbiddenTool(forbidden[0])) + Forbidden(forbidden[1..], tools)
  }

  function StateFailures(gate: Gate, c: GoldenCase, o: Observed): seq<Failure> {
    Check(o.qualityPassed == Some(c.expectedQualityPassed), QualityPassed)
    + Check(c.expectedQualityReason == "" || o.qualityReason == Some(c.expectedQualityReason), QualityReason)
    + Check(gate.RealProvider? || o.classifiedIntent == Some(c.expectedClassifiedIntent), ClassifiedIntent)
    + Check(o.leadStatus == c.expectedLeadStatus, LeadStatus)
    + Check(o.conversationStatus == c.expectedConversationStatus, ConversationStatus)
  }

  function OutcomeFailures(lower: char -> char, c: GoldenCase, o: Observed): seq<Failure> {
    Check(o.booking == c.expectedBookingDraft, BookingDraft)
    + Check(o.task == c.expectedHandoffTask, HandoffTask)
    + Check(o.usage, UsageLog)
    + Check(RetrievedAll(lower, c.mustRetrieveTerms, o.contextText), MissingTerms)
  }

  function Failures(gate: Gate, lower: char -> char, c: GoldenCase, o: Observed): seq<Failure> {
    StateFailures(gate, c, o) + Missing(c.expectedTools, o.tools) + Forbidden(c.forbiddenTools, o.tools)
    + OutcomeFailures(lower, c, o)
  }

  /** What each failure says about a case. */
  predicate Broken(gate: Gate, lower: char -> char, c: GoldenCase, o: Observed, f: Failure) {
    match f
    case QualityPassed => o.qualityPassed != Some(c.expectedQualityPassed)
    case QualityReason => c.expectedQualityReason != "" && o.qualityReason != Some(c.expectedQualityReason)
    case ClassifiedIntent => gate.Golden? && o.classifiedIntent != Some(c.expectedClassifiedIntent)
    case LeadStatus => o.leadStatus != c.expectedLeadStatus
    case ConversationStatus => o.conversationStatus != c.expectedConversationStatus
    case MissingTool(tool) => tool in c.expectedTools && tool !in o.tools
    case ForbiddenTool(tool) => tool in c.forbiddenTools && tool in o.tools
    case BookingDraft => o.booking != c.expectedBookingDraft
    case HandoffTask => o.task != c.expectedHandoffTask
    case UsageLog => !o.usage
    case MissingTerms => !RetrievedAll(lower, c.mustRetrieveTerms, o.contextText)
  }

  method AddCheck(failures: seq<Failure>, condition: bool, failure: Failure) returns (r: seq<Failure>)
    ensures r == failures + Check(condition, failure)
  {
    r := if condition then failures else failures + [failure];
  }

  lemma CheckHolds(failures: seq<Failure>, failure: Failure)
    ensures failures + Check(true, failure) == failures
  {
  }

  /** The checks before the tools. */
  method CheckState(gate: Gate, c: GoldenCase, o: Observed) returns (failures: seq<Failure>)
    ensures failures == StateFailures(gate, c, o)
  {
    hide Check;
    failures := AddCheck([], o.qualityPassed == Some(c.expectedQualityPassed), QualityPassed);
    assert failures == Check(o.qualityPassed == Some(c.expectedQualityPassed), QualityPassed);
    CheckHolds(failures, QualityReason);
    if c.expectedQualityReason != "" {
      failures := AddCheck(failures, o.qualityReason == Some(c.expectedQualityReason), QualityReason);
    }
    CheckHolds(failures, ClassifiedIntent);
    if gate.Golden? {
      failures := AddCheck(failures, o.classifiedIntent == Some(c.expectedClassifiedIntent), ClassifiedIntent);
    }
    failures := AddCheck(failures, o.leadStatus == c.expectedLeadStatus, LeadStatus);
    failures := AddCheck(failures, o.conversationStatus == c.expectedConversationStatus, ConversationStatus);
  }

  /** The two loops over the tools. */
  method CheckTools(before: seq<Failure>, c: GoldenCase, o: Observed) returns (failures: seq<Failure>)
    ensures failures == before + Missing(c.expectedTools, o.tools) + Forbidden(c.forbiddenTools, o.tools)
  {
    hide Check;
    failures := before;
    for i := 0 to |c.expectedTools|
      invariant before + Missing(c.expectedTools, o.tools) == failures + Missing(c.expectedTools[i..], o.tools)
    {
      failures := AddCheck(failures, c.expectedTools[i] in o.tools, MissingTool(c.expectedTools[i]));
    }
    for i := 0 to |c.forbiddenTools|
      invariant before + Missing(c.expectedTools, o.tools) + Forbidden(c.forbiddenTools, o.tools)
                == failures + Forbidden(c.forbiddenTools[i..], o.tools)
    {
      failures := AddCheck(failures, c.forbiddenTools[i] !in o.tools, ForbiddenTool(c.forbiddenTools[i]));
    }
  }

  /** The checks after the tools. */
  method CheckOutcome(lower: char -> char, c: GoldenCase, o: Observed) returns (failures: seq<Failure>)
    ensures failures == OutcomeFailures(lower, c, o)
  {
    hide RetrievedAll;
    failures := AddCheck([], o.booking == c.expectedBookingDraft, BookingDraft);
    failures := AddCheck(failures, o.task == c.expectedHandoffTask, HandoffTask);
    failures := AddCheck(failures, o.usage, UsageLog);
    NoTerms(lower, c.mustRetrieveTerms, o.contextText);
    if |c.mustRetrieveTerms| > 0 {
      failures := AddCheck(failures, RetrievedAll(lower, c.mustRetrieveTerms, o.contextText), MissingTerms);
    }
  }

  /** All checks of a case. */
  method RunChecks(gate: Gate, lower: char -> char, c: GoldenCase, o: Observed) returns (failures: seq<Failure>)
    ensures failures == Failures(gate, lower, c, o)
  {
    hide Missing, Forbidden, StateFailures, OutcomeFailures;
    failures := CheckState(gate, c, o);
    failures := CheckTools(failures, c, o);
    var last := CheckOutcome(lower, c, o);
    failures := failures + last;
  }

  lemma NoTerms(lower: char -> char, terms: seq<string>, text: string)
    ensures terms == [] ==> RetrievedAll(lower, terms, text)
  {
  }

  lemma {:induction false} MissingExactly(expected: seq<string>, tools: seq<string>)
    ensures |Missing(expected, tools)| <= |expected|
    ensures forall f :: f in Missing(expected, tools) <==> f.MissingTool? && f.tool in expected && f.tool !in tools
  {
    if expected != [] {
      MissingExactly(expected[1..], tools);
      assert expected == [expected[0]] + expected[1..];
    }
  }

  lemma {:induction false} ForbiddenExactly(forbidden: seq<string>, tools: seq<string>)
    ensures |Forbidden(forbidden, tools)| <= |forbidden|
    ensures forall f :: f in Forbidden(forbidden, tools) <==> f.ForbiddenTool? && f.tool in forbidden && f.tool in tools
  {
    if forbidden != [] {
      ForbiddenExactly(forbidden[1..], tools);
      assert forbidden == [forbidden[0]] + forbidden[1..];
    }
  }

  lemma StateExactly(gate: Gate, lower: char -> char, c: GoldenCase, o: Observed)
    ensures |StateFailures(gate, c, o)| <= (if gate.Golden? then 4 else 3)
            + (if c.expectedQualityReason != "" then 1 else 0)
    ensures forall f :: f in StateFailures(gate, c, o) <==>
              Broken(gate, lower, c, o, f)
                  && f in {QualityPassed, QualityReason, ClassifiedIntent, LeadStatus, ConversationStatus}
  {
    hide RetrievedAll;
  }

  lemma OutcomeExactly(gate: Gate, lower: char -> char, c: GoldenCase, o: Observed)
    ensures |OutcomeFailures(lower, c, o)| <= 3 + (if |c.mustRetrieveTerms| > 0 then 1 else 0)
    ensures forall f :: f in OutcomeFailures(lower, c, o) <==>
              Broken(gate, lower, c, o, f) && f in {BookingDraft, HandoffTask, UsageLog, MissingTerms}
  {
    hide RetrievedAll;
    NoTerms(lower, c.mustRetrieveTerms, o.contextText);
  }

  /**
  The failures are exactly the broken expectations, so there is none exactly when the case meets all of
  them; and they are fewer than the declared checks, since the declared totals count one check (or
  three) that is never made.
  */
  lemma FailuresExactly(gate: Gate, lower: char -> char, c: GoldenCase, o: Observed)
    ensures forall f :: f in Failures(gate, lower, c, o) <==> Broken(gate, lower, c, o, f)
    ensures Failures(gate, lower, c, o) == [] <==> Meets(gate, lower, c, o)
    ensures |Failures(gate, lower, c, o)| <= TotalChecks(gate, c) - (if gate.Golden? then 1 else 3)
  {
    hide RetrievedAll, Missing, Forbidden, Meets, StateFailures, OutcomeFailures;
    StateExactly(gate, lower, c, o);
    MissingExactly(c.expectedTools, o.tools);
    ForbiddenExactly(c.forbiddenTools, o.tools);
    OutcomeExactly(gate, lower, c, o);
    MeetsNothingBroken(gate, lower, c, o);
    var failures := Failures(gate, lower, c, o);
    if failures != [] {
      assert failures[0] in failures;
    }
  }

  lemma MeetsNothingBroken(gate: Gate, lower: char -> char, c: GoldenCase, o: Observed)
    ensures Meets(gate, lower, c, o) <==> forall f :: !Broken(gate, lower, c, o, f)
  {
    hide RetrievedAll;
    if forall f :: !Broken(gate, lower, c, o, f) {
      assert forall i :: 0 <= i < |c.expectedTools| ==> !Broken(gate, lower, c, o, MissingTool(c.expectedTools[i]));
      assert forall i :: 0 <= i < |c.forbiddenTools| ==> !Broken(gate, lower, c, o, ForbiddenTool(c.forbiddenTools[i]));
      assert !Broken(gate, lower, c, o, QualityPassed) && !Broken(gate, lower, c, o, QualityReason)
             && !Broken(gate, lower, c, o, ClassifiedIntent) && !Broken(gate, lower, c, o, LeadStatus)
             && !Broken(gate, lower, c, o, ConversationStatus) && !Broken(gate, lower, c, o, BookingDraft)
             && !Broken(gate, lower, c, o, HandoffTask) && !Broken(gate, lower, c, o, UsageLog)
             && !Broken(gate, lower, c, o, MissingTerms);
    }
  }

  function Score(total: nat, failures: nat): real
    requires total > 0
  {
    Rounded((total as real - failures as real) / total as real)
  }

  /** Scores lie between 0 and 1. They are 1 exactly when the failures are at most one in 20000 of the total. */
  lemma ScoreIsOneExactly(total: nat, failures: nat)
    requires 0 < total && failures <= total
    ensures 0.0 <= Score(total, failures) <= 1.0
    ensures Score(total, failures) == 1.0 <==> 20000 * failures <= total
  {
    var t, f := total as real, failures as real;
    var x := (t - f) / t;
    assert x * t == t - f;
    Quotient(t, f, x);
    RoundedBounds(x);
  }

  /** `score` is the share of `total` that did not fail, to four digits. */
  ghost predicate Near(score: real, total: nat, failures: nat)
    requires total > 0
  {
    var share := (total - failures) as real / total as real;
    -0.00005 <= score - share <= 0.00005
  }

  lemma ScoreIsNear(total: nat, failures: nat)
    requires 0 < total
    ensures Near(Score(total, failures), total, failures)
  {
    var x := (total as real - failures as real) / total as real;
    assert (total - failures) as real == total as real - failures as real;
    RoundedIsNear(x);
  }

  lemma RoundedIsNear(x: real)
    ensures -0.00005 <= Rounded(x) - x <= 0.00005
  {
    var k := Fixed4(x);
    assert k as real <= x * 10000.0 + 0.5 < k as real + 1.0;
  }

  lemma RoundedToZero(x: real)
    ensures x >= 0.0 ==> (Rounded(x) == 0.0 <==> x < 0.00005)
  {
    var k := Fixed4(x);
    assert k as real <= x * 10000.0 + 0.5 < k as real + 1.0;
  }

  /** And they are 0 exactly when fewer than one in 20000 checks did not fail. */
  lemma ScoreIsZeroExactly(total: nat, failures: nat)
    requires 0 < total && failures <= total
    ensures Score(total, failures) == 0.0 <==> 20000 * (total - failures) < total
  {
    var t, f := total as real, failures as real;
    var x := (t - f) / t;
    assert x * t == t - f;
    Quotient(t, f, x);
    SmallQuotient(t, f, x);
    RoundedToZero(x);
  }

  lemma SmallQuotient(t: real, f: real, x: real)
    requires t > 0.0 && x * t == t - f
    ensures x < 0.00005 <==> 20000.0 * (t - f) < t
  {
    Sign(x, 0.00005, t);
    SmallLinear(t, f, x * t);
  }

  lemma SmallLinear(t: real, f: real, g: real)
    requires g == t - f
    ensures g < 0.00005 * t <==> 20000.0 * (t - f) < t
  {
  }

  lemma Sign(x: real, k: real, t: real)
    requires t > 0.0
    ensures x >= k <==> x * t >= k * t
    ensures x <= k <==> x * t <= k * t
  {
    assert x * t - k * t == (x - k) * t;
  }

  lemma Quotient(t: real, f: real, x: real)
    requires t > 0.0 && 0.0 <= f <= t && x * t == t - f
    ensures 0.0 <= x <= 1.0
    ensures x >= 0.99995 <==> 20000.0 * f <= t
  {
    Sign(x, 0.0, t);
    Sign(x, 1.0, t);
    Sign(x, 0.99995, t);
    Linear(t, f, x * t);
  }

  lemma Linear(t: real, f: real, g: real)
    requires g == t - f
    ensures g >= 0.99995 * t <==> 20000.0 * f <= t
  {
  }

  /**
  So for fewer than 20000 checks the score is 1 exactly when nothing failed, and for 20000 it can be 1
  all the same.
  */
  lemma ScoreTellsPassed(total: nat, failures: nat)
    requires 0 < total < 20000 && failures <= total
    ensures Score(total, failures) == 1.0 <==> failures == 0
    ensures Score(20000, 1) == 1.0
  {
    ScoreIsOneExactly(total, failures);
    ScoreIsOneExactly(20000, 1);
  }

  // ---------------------------------------------------------------------------------------------
  // All cases.

  datatype CaseResult = CaseResult(passed: bool, score: real, retrievalHit: bool)

  /** How a case's result comes from its failures and its retrieved terms. */
  function ResultOf(gate: Gate, lower: char -> char, c: GoldenCase, o: Observed): CaseResult {
    var failures := Failures(gate, lower, c, o);
    CaseResult(failures == [], Score(TotalChecks(gate, c), |failures|),
               c.mustRetrieveTerms == [] || RetrievedAll(lower, c.mustRetrieveTerms, o.contextText))
  }

  /** A result as running a case gives it: in range, and passing forces a full score and a retrieval hit. */
  predicate Sound(r: CaseResult) {
    0.0 <= r.score <= 1.0 && (r.passed ==> r.score == 1.0 && r.retrievalHit)
  }

  lemma ResultsAreSound(gate: Gate, lower: char -> char, c: GoldenCase, o: Observed)
    ensures Sound(ResultOf(gate, lower, c, o))
  {
    hide RetrievedAll, Score, Failures;
    FailuresExactly(gate, lower, c, o);
    ScoreIsOneExactly(TotalChecks(gate, c), |Failures(gate, lower, c, o)|);
  }

  /**
  Since some declared checks are never made, no score is 0 up to 20000 checks, or 60000 for the
  real-provider gate.
  */
  lemma ScoreIsPositive(gate: Gate, lower: char -> char, c: GoldenCase, o: Observed)
    requires TotalChecks(gate, c) <= if gate.Golden? then 20000 else 60000
    ensures ResultOf(gate, lower, c, o).score > 0.0
  {
    hide RetrievedAll, Score, Failures;
    FailuresExactly(gate, lower, c, o);
    var total, failed := TotalChecks(gate, c), |Failures(gate, lower, c, o)|;
    ScoreIsOneExactly(total, failed);
    ScoreIsZeroExactly(total, failed);
  }

  /** The bounds are sharp: a case with one check more whose expectations are all broken scores 0. */
  lemma ScoreCanBeZero(gate: Gate, lower: char -> char) returns (c: GoldenCase, o: Observed)
    ensures TotalChecks(gate, c) == if gate.Golden? then 20001 else 60001
    ensures ResultOf(gate, lower, c, o).score == 0.0
  {
    hide Score;
    var n := if gate.Golden? then 19993 else 59992;
    var tools := seq(n, i => "tool");
    c := GoldenCase(true, "", "intent", "status", "status", tools, [], true, true, []);
    o := Observed(None, None, None, "", "", [], false, false, false, "");
    MissingAll(tools);
    NoTerms(lower, c.mustRetrieveTerms, o.contextText);
    assert |StateFailures(gate, c, o)| == if gate.Golden? then 4 else 3;
    assert |OutcomeFailures(lower, c, o)| == 3;
    ScoreIsZeroExactly(TotalChecks(gate, c), |Failures(gate, lower, c, o)|);
  }

  lemma {:induction false} MissingAll(expected: seq<string>)
    ensures |Missing(expected, [])| == |expected|
  {
    if expected != [] {
      MissingAll(expected[1..]);
    }
  }

  /** What a result says about its case, without its list of failures. */
  lemma ResultIs(gate: Gate, lower: char -> char, c: GoldenCase, o: Observed)
    ensures var r := ResultOf(gate, lower, c, o);
            && (r.passed <==> Meets(gate, lower, c, o))
            && (r.retrievalHit <==> forall term :: term in c.mustRetrieveTerms ==>
                                      Contains(LowerAll(lower, o.contextText), LowerAll(lower, term)))
            && Near(r.score, TotalChecks(gate, c), |Failures(gate, lower, c, o)|)
  {
    hide Contains, LowerAll, Failures, Score, Near, Meets, RetrievedAll;
    FailuresExactly(gate, lower, c, o);
    ScoreIsNear(TotalChecks(gate, c), |Failures(gate, lower, c, o)|);
    RetrievedAllIs(lower, c.mustRetrieveTerms, o.contextText);
  }

  lemma RetrievedAllIs(lower: char -> char, terms: seq<string>, text: string)
    ensures RetrievedAll(lower, terms, text) <==>
            forall term :: term in terms ==> Contains(LowerAll(lower, text), LowerAll(lower, term))
  {
    hide Contains, LowerAll;
    if forall term :: term in terms ==> Contains(LowerAll(lower, text), LowerAll(lower, term)) {
      forall i | 0 <= i < |terms| ensures Contains(LowerAll(lower, text), LowerAll(lower, terms[i])) {
        assert terms[i] in terms;
      }
    }
  }

  /**
  For every case without a tool both expected and forbidden, and with a term that can be missed, all
  checks can fail.
  */
  lemma BoundIsReached(gate: Gate, lower: char -> char, c: GoldenCase) returns (o: Observed)
    requires forall tool :: tool in c.expectedTools ==> tool !in c.forbiddenTools
    requires c.mustRetrieveTerms == [] || exists term :: term in c.mustRetrieveTerms && term != ""
    ensures |Failures(gate, lower, c, o)| == TotalChecks(gate, c) - (if gate.Golden? then 1 else 3)
  {
    o := Observed(None, None, None, c.expectedLeadStatus + "x", c.expectedConversationStatus + "x", c.forbiddenTools,
                  !c.expectedBookingDraft, !c.expectedHandoffTask, false, "");
    AllMissing(c.expectedTools, c.forbiddenTools);
    AllForbidden(c.forbiddenTools, c.forbiddenTools);
    hide Missing, Forbidden;
    if c.mustRetrieveTerms == [] {
      NoTerms(lower, c.mustRetrieveTerms, o.contextText);
    } else {
      NothingRetrieved(lower, c.mustRetrieveTerms);
    }
    hide RetrievedAll;
    assert |o.leadStatus| != |c.expectedLeadStatus| && |o.conversationStatus| != |c.expectedConversationStatus|;
    assert |StateFailures(gate, c, o)|
        == (if gate.Golden? then 4 else 3) + (if c.expectedQualityReason != "" then 1 else 0);
    assert |OutcomeFailures(lower, c, o)| == 3 + (if |c.mustRetrieveTerms| > 0 then 1 else 0);
  }

  lemma NothingRetrieved(lower: char -> char, terms: seq<string>)
    requires exists term :: term in terms && term != ""
    ensures !RetrievedAll(lower, terms, "")
  {
    var term :| term in terms && term != "";
    var i :| 0 <= i < |terms| && terms[i] == term;
    assert |LowerAll(lower, "")| == 0 && |LowerAll(lower, term)| > 0;
    assert !Contains(LowerAll(lower, ""), LowerAll(lower, terms[i]));
  }

  lemma {:induction false} AllMissing(expected: seq<string>, tools: seq<string>)
    requires forall tool :: tool in expected ==> tool !in tools
    ensures |Missing(expected, tools)| == |expected|
  {
    if expected != [] {
      assert expected[0] in expected;
      AllMissing(expected[1..], tools);
    }
  }

  lemma {:induction false} AllForbidden(forbidden: seq<string>, tools: seq<string>)
    requires forall tool :: tool in forbidden ==> tool in tools
    ensures |Forbidden(forbidden, tools)| == |forbidden|
  {
    if forbidden != [] {
      assert forbidden[0] in forbidden;
      AllForbidden(forbidden[1..], tools);
    }
  }

  function PassedCount(rs: seq<CaseResult>): nat {
    if rs == [] then 0 else (if rs[0].passed then 1 else 0) + PassedCount(rs[1..])
  }

  function HitCount(rs: seq<CaseResult>): nat {
    if rs == [] then 0 else (if rs[0].retrievalHit then 1 else 0) + HitCount(rs[1..])
  }

  function ScoreSum(rs: seq<CaseResult>): real {
    if rs == [] then 0.0 else rs[0].score + ScoreSum(rs[1..])
  }

  datatype Thresholds = Thresholds(minPassRate: real, minAverageScore: real, minRetrievalHitRate: real)

  /** The gate's verdict; without results the rates are not numbers and every comparison is false. */
  predicate GateOk(rs: seq<CaseResult>, t: Thresholds) {
    && rs != []
    && PassedCount(rs) as real / |rs| as real >= t.minPassRate
    && ScoreSum(rs) / |rs| as real >= t.minAverageScore
    && HitCount(rs) as real / |rs| as real >= t.minRetrievalHitRate
  }

  lemma {:induction false} SumsBoundPasses(rs: seq<CaseResult>)
    requires forall i :: 0 <= i < |rs| ==> Sound(rs[i])
    ensures PassedCount(rs) as real <= ScoreSum(rs) <= |rs| as real
    ensures PassedCount(rs) <= HitCount(rs) <= |rs|
  {
    if rs != [] {
      assert Sound(rs[0]);
      SumsBoundPasses(rs[1..]);
    }
  }

  lemma DivideBoth(a: real, b: real, n: real)
    requires a <= b && n > 0.0
    ensures a / n <= b / n
  {
    var x, y := a / n, b / n;
    assert x * n == a && y * n == b;
    assert x > y ==> (x - y) * n > 0.0;
  }

  /** The pass rate is at most the average score and the retrieval hit rate; all three are at most 1. */
  lemma PassRateIsSmallest(rs: seq<CaseResult>)
    requires rs != [] && forall i :: 0 <= i < |rs| ==> Sound(rs[i])
    ensures var n := |rs| as real;
            && PassedCount(rs) as real / n <= ScoreSum(rs) / n <= 1.0
            && PassedCount(rs) as real / n <= HitCount(rs) as real / n <= 1.0
  {
    hide PassedCount, ScoreSum, HitCount;
    SumsBoundPasses(rs);
    var n := |rs| as real;
    DivideBoth(PassedCount(rs) as real, ScoreSum(rs), n);
    DivideBoth(ScoreSum(rs), n, n);
    DivideBoth(PassedCount(rs) as real, HitCount(rs) as real, n);
    DivideBoth(HitCount(rs) as real, n, n);
    assert n / n == 1.0;
  }

  function IsPass(): CaseResult -> bool {
    (r: CaseResult) => r.passed
  }

  function IsHit(): CaseResult -> bool {
    (r: CaseResult) => r.retrievalHit
  }

  lemma {:induction false} PassedCountIs(rs: seq<CaseResult>)
    ensures PassedCount(rs) == |Places(IsPass(), rs)| && HitCount(rs) == |Places(IsHit(), rs)|
  {
    var p, h := IsPass(), IsHit();
    if rs == [] {
      PlacesNone(p);
      PlacesNone(h);
    } else {
      PassedCountIs(rs[1..]);
      PlacesCons(p, rs);
      PlacesCons(h, rs);
    }
  }

  lemma {:induction false} ScoreSumIs(a: seq<CaseResult>, b: seq<CaseResult>)
    ensures ScoreSum(a + b) == ScoreSum(a) + ScoreSum(b)
    ensures |b| == 1 ==> ScoreSum(b) == b[0].score
  {
    if a == [] {
      assert a + b == b;
    } else {
      assert (a + b)[1..] == a[1..] + b;
      ScoreSumIs(a[1..], b);
    }
    assert |b| == 1 ==> b[1..] == [];
  }

  lemma AtLeast(a: real, n: real, t: real)
    requires n > 0.0
    ensures a / n >= t <==> a >= t * n
  {
    var x := a / n;
    assert x * n == a;
    Sign(x, t, n);
  }

  /** The gate is open exactly when there are results and each of the three sums reaches its share of them. */
  lemma GateExactly(rs: seq<CaseResult>, t: Thresholds)
    ensures GateOk(rs, t) <==>
            && |rs| > 0
            && |Places(IsPass(), rs)| as real >= t.minPassRate * |rs| as real
            && ScoreSum(rs) >= t.minAverageScore * |rs| as real
            && |Places(IsHit(), rs)| as real >= t.minRetrievalHitRate * |rs| as real
  {
    hide PassedCount, HitCount, ScoreSum, Places, IsPass, IsHit;
    PassedCountIs(rs);
    if |rs| > 0 {
      var n, p, x, h := |rs| as real, PassedCount(rs) as real, ScoreSum(rs), HitCount(rs) as real;
      AtLeast(p, n, t.minPassRate);
      AtLeast(x, n, t.minAverageScore);
      AtLeast(h, n, t.minRetrievalHitRate);
      assert GateOk(rs, t) <==> p / n >= t.minPassRate && x / n >= t.minAverageScore && h / n >= t.minRetrievalHitRate;
    }
  }

  /** So a pass rate that reaches all three thresholds decides the gate. */
  lemma PassRateDecides(rs: seq<CaseResult>, t: Thresholds)
    requires rs != [] && forall i :: 0 <= i < |rs| ==> Sound(rs[i])
    requires var p := PassedCount(rs) as real / |rs| as real;
             p >= t.minPassRate && p >= t.minAverageScore && p >= t.minRetrievalHitRate
    ensures GateOk(rs, t)
  {
    hide PassedCount, ScoreSum, HitCount;
    PassRateIsSmallest(rs);
  }

  // ---------------------------------------------------------------------------------------------
  // Retrieval metrics.

  datatype Chunk = Chunk(title: string, content: string)

  /** The context text: the references and then "title: content" of each chunk, one per line. */
  function ContextText(refs: seq<string>, chunks: seq<Chunk>): string {
    Join(refs + seq(|chunks|, i requires 0 <= i < |chunks| => chunks[i].title + ": " + chunks[i].content), "\n")
  }

  function Matched(lower: char -> char, terms: seq<string>, text: string): nat {
    if terms == [] then 0
    else
      (if Contains(LowerAll(lower, text), LowerAll(lower, terms[0])) then 1 else 0) + Matched(lower, terms[1..], text)
  }

  /** All required terms, each as often as it is required, are matched exactly on a retrieval hit. */
  lemma {:induction false} MatchedAllIsHit(lower: char -> char, terms: seq<string>, text: string)
    ensures Matched(lower, terms, text) <= |terms|
    ensures Matched(lower, terms, text) == |terms| <==> RetrievedAll(lower, terms, text)
  {
    if terms != [] {
      hide Contains;
      MatchedAllIsHit(lower, terms[1..], text);
      assert RetrievedAll(lower, terms, text) <==>
             Contains(LowerAll(lower, text), LowerAll(lower, terms[0])) && RetrievedAll(lower, terms[1..], text) by {
        assert forall i :: 0 < i < |terms| ==> terms[i] == terms[1..][i - 1];
      }
    }
  }

  lemma {:induction false} LowerAppend(lower: char -> char, a: string, b: string)
    ensures LowerAll(lower, a + b) == LowerAll(lower, a) + LowerAll(lower, b)
  {
  }

  lemma ContainsInside(a: string, s: string, b: string, p: string)
    requires Contains(s, p)
    ensures Contains(a + s + b, p)
  {
    var i :| 0 <= i <= |s| && OccursAt(s, p, i);
    var t := a + s + b;
    assert t[|a| + i..|a| + i + |p|] == s[i..i + |p|];
    assert OccursAt(t, p, |a| + i);
  }

  /** Each part of a joined text is in it. */
  lemma {:induction false} JoinParts(parts: seq<string>, sep: string, k: nat) returns (a: string, b: string)
    requires k < |parts|
    ensures Join(parts, sep) == a + parts[k] + b
  {
    if |parts| == 1 {
      a, b := "", "";
    } else if k == 0 {
      a, b := "", sep + Join(parts[1..], sep);
    } else {
      var a', b' := JoinParts(parts[1..], sep, k - 1);
      a, b := parts[0] + sep + a', b';
    }
  }

  /** A term that lies in the title or in the content of some chunk is found in the context text. */
  lemma ChunkTermIsFound(lower: char -> char, refs: seq<string>, chunks: seq<Chunk>, k: nat, term: string)
    requires k < |chunks|
    requires || Contains(LowerAll(lower, chunks[k].title), LowerAll(lower, term))
             || Contains(LowerAll(lower, chunks[k].content), LowerAll(lower, term))
    ensures Contains(LowerAll(lower, ContextText(refs, chunks)), LowerAll(lower, term))
  {
    hide Contains, Join, LowerAll;
    var lines := seq(|chunks|, i requires 0 <= i < |chunks| => chunks[i].title + ": " + chunks[i].content);
    var parts := refs + lines;
    var a, b := JoinParts(parts, "\n", |refs| + k);
    assert parts[|refs| + k] == chunks[k].title + ": " + chunks[k].content;
    var t, c, sep := chunks[k].title, chunks[k].content, ": ";
    if Contains(LowerAll(lower, t), LowerAll(lower, term)) {
      Embed(lower, a, t, sep + c + b, term);
      assert a + t + (sep + c + b) == a + (t + sep + c) + b;
    } else {
      Embed(lower, a + t + sep, c, b, term);
      assert a + t + sep + c + b == a + (t + sep + c) + b;
    }
  }

  /** So is a term that lies in a reference. */
  lemma ReferenceTermIsFound(lower: char -> char, refs: seq<string>, chunks: seq<Chunk>, k: nat, term: string)
    requires k < |refs| && Contains(LowerAll(lower, refs[k]), LowerAll(lower, term))
    ensures Contains(LowerAll(lower, ContextText(refs, chunks)), LowerAll(lower, term))
  {
    hide Contains, Join, LowerAll;
    var parts := refs + seq(|chunks|, i requires 0 <= i < |chunks| => chunks[i].title + ": " + chunks[i].content);
    var a, b := JoinParts(parts, "\n", k);
    Embed(lower, a, refs[k], b, term);
  }

  /** A term is counted as often as it is required, and a chunk once. */
  lemma {:induction false} MatchedIs(lower: char -> char, terms: seq<string>, text: string)
    ensures Matched(lower, terms, text) ==
            |Places((term: string) => Contains(LowerAll(lower, text), LowerAll(lower, term)), terms)|
  {
    hide Contains, LowerAll;
    var p := (term: string) => Contains(LowerAll(lower, text), LowerAll(lower, term));
    if terms == [] {
      PlacesNone(p);
    } else {
      MatchedIs(lower, terms[1..], text);
      PlacesCons(p, terms);
    }
  }

  lemma {:induction false} RelevantIs(lower: char -> char, chunks: seq<Chunk>, terms: seq<string>)
    ensures Relevant(lower, chunks, terms) == |Places((chunk: Chunk) => IsRelevant(lower, chunk, terms), chunks)|
  {
    hide IsRelevant;
    var p := (chunk: Chunk) => IsRelevant(lower, chunk, terms);
    if chunks == [] {
      PlacesNone(p);
    } else {
      RelevantIs(lower, chunks[1..], terms);
      PlacesCons(p, chunks);
    }
  }

  lemma Embed(lower: char -> char, a: string, s: string, b: string, term: string)
    requires Contains(LowerAll(lower, s), LowerAll(lower, term))
    ensures Contains(LowerAll(lower, a + s + b), LowerAll(lower, term))
  {
    hide Contains, LowerAll;
    LowerAppend(lower, a + s, b);
    LowerAppend(lower, a, s);
    ContainsInside(LowerAll(lower, a), LowerAll(lower, s), LowerAll(lower, b), LowerAll(lower, term));
  }

  /** A chunk is relevant when one of the terms is in its title and content with a space between. */
  predicate HasTerm(lower: char -> char, chunk: Chunk, term: string) {
    Contains(LowerAll(lower, chunk.title + " " + chunk.content), LowerAll(lower, term))
  }

  predicate IsRelevant(lower: char -> char, chunk: Chunk, terms: seq<string>) {
    exists i :: 0 <= i < |terms| && HasTerm(lower, chunk, terms[i])
  }

  function Relevant(lower: char -> char, chunks: seq<Chunk>, terms: seq<string>): nat {
    if chunks == [] then 0
    else (if IsRelevant(lower, chunks[0], terms) then 1 else 0) + Relevant(lower, chunks[1..], terms)
  }

  lemma {:induction false} RelevantBound(lower: char -> char, chunks: seq<Chunk>, terms: seq<string>)
    ensures Relevant(lower, chunks, terms) <= |chunks|
    ensures Relevant(lower, chunks, terms) == |chunks| <==>
            forall k :: 0 <= k < |chunks| ==> IsRelevant(lower, chunks[k], terms)
    ensures Relevant(lower, chunks, terms) > 0 <==> exists k :: 0 <= k < |chunks| && IsRelevant(lower, chunks[k], terms)
  {
    hide IsRelevant;
    if chunks != [] {
      RelevantBound(lower, chunks[1..], terms);
      assert forall k :: 0 < k < |chunks| ==> chunks[k] == chunks[1..][k - 1];
      assert forall k :: 0 <= k < |chunks| - 1 ==> chunks[1..][k] == chunks[k + 1];
    }
  }

  datatype Metrics = Metrics(required: nat, matched: nat, termRecall: real,
                             retrieved: nat, relevant: nat, chunkPrecision: real)

  function RetrievalMetrics(lower: char -> char, terms: seq<string>, refs: seq<string>, chunks: seq<Chunk>): Metrics {
    if terms == [] then Metrics(0, 0, 1.0, |chunks|, |chunks|, 1.0)
    else
      var matched := Matched(lower, terms, ContextText(refs, chunks));
      var relevant := Relevant(lower, chunks, terms);
      Metrics(|terms|, matched, Rounded(matched as real / |terms| as real), |chunks|, relevant,
              if chunks == [] then 0.0 else Rounded(relevant as real / |chunks| as real))
  }

  /** The counts stay below their totals, the rates in [0, 1], and full recall or precision means all of them. */
  lemma MetricsAreConsistent(lower: char -> char, terms: seq<string>, refs: seq<string>, chunks: seq<Chunk>)
    ensures var m := RetrievalMetrics(lower, terms, refs, chunks);
            && m.matched <= m.required && m.relevant <= m.retrieved
            && 0.0 <= m.termRecall <= 1.0 && 0.0 <= m.chunkPrecision <= 1.0
            && (m.matched == m.required <==> RetrievedAll(lower, terms, ContextText(refs, chunks)))
            && (m.termRecall == 1.0 <==> 20000 * (m.required - m.matched) <= m.required)
            && (|chunks| > 0 ==> (m.chunkPrecision == 1.0 <==> 20000 * (m.retrieved - m.relevant) <= m.retrieved))
  {
    hide RetrievedAll, ContextText, Matched, Relevant, Rounded;
    var text := ContextText(refs, chunks);
    MatchedAllIsHit(lower, terms, text);
    RelevantBound(lower, chunks, terms);
    if terms == [] {
      MatchedNone(lower, text);
    } else {
      Part(|terms|, Matched(lower, terms, text));
      if chunks != [] {
        Part(|chunks|, Relevant(lower, chunks, terms));
      }
    }
  }

  /** What the metrics count and how far they are rounded, for a case with required terms. */
  lemma MetricsAre(lower: char -> char, terms: seq<string>, refs: seq<string>, chunks: seq<Chunk>)
    requires terms != []
    ensures var m := RetrievalMetrics(lower, terms, refs, chunks);
            var text := ContextText(refs, chunks);
            && m.required == |terms| && m.retrieved == |chunks| && m.matched <= m.required && m.relevant <= m.retrieved
            && m.matched == |Places((term: string) => Contains(LowerAll(lower, text), LowerAll(lower, term)), terms)|
            && m.relevant == |Places((chunk: Chunk) => IsRelevant(lower, chunk, terms), chunks)|
            && Near(m.termRecall, m.required, m.required - m.matched)
            && (chunks == [] ==> m.chunkPrecision == 0.0)
            && (chunks != [] ==> Near(m.chunkPrecision, m.retrieved, m.retrieved - m.relevant))
  {
    hide RetrievedAll, ContextText, Matched, Relevant, Rounded, Contains, LowerAll, IsRelevant, Near;
    var text := ContextText(refs, chunks);
    MatchedAllIsHit(lower, terms, text);
    RelevantBound(lower, chunks, terms);
    MatchedIs(lower, terms, text);
    RelevantIs(lower, chunks, terms);
    Part(|terms|, Matched(lower, terms, text));
    if chunks != [] {
      Part(|chunks|, Relevant(lower, chunks, terms));
    }
  }

  lemma MatchedNone(lower: char -> char, text: string)
    ensures Matched(lower, [], text) == 0
  {
  }

  lemma Part(total: nat, part: nat)
    requires 0 < total && part <= total
    ensures 0.0 <= Rounded(part as real / total as real) <= 1.0
    ensures Rounded(part as real / total as real) == 1.0 <==> 20000 * (total - part) <= total
    ensures Near(Rounded(part as real / total as real), total, total - part)
  {
    hide Rounded, Near;
    ScoreIsOneExactly(total, total - part);
    ScoreIsNear(total, total - part);
    SameScore(total, part);
  }

  lemma SameScore(total: nat, part: nat)
    requires 0 < total && part <= total
    ensures Score(total, total - part) == Rounded(part as real / total as real)
  {
    assert total as real - (total - part) as real == part as real;
  }

  /** Every space of the term comes after nothing but colons. */
  predicate SpaceOnlyAfterColons(term: string) {
    forall i, j :: 0 <= j < i < |term| && term[i] == ' ' ==> term[j] == ':'
  }

  lemma FoundAcross(t: string, c: string, p: string)
    requires SpaceOnlyAfterColons(p) && Contains(t + " " + c, p)
    ensures Contains(t + ": " + c, p)
  {
    var s, u := t + " " + c, t + ": " + c;
    var i :| 0 <= i <= |s| && OccursAt(s, p, i);
    assert forall m :: 0 <= m < |p| ==> p[m] == s[i..i + |p|][m] == s[i + m];
    if i + |p| <= |t| {
      assert u[i..i + |p|] == p;
      assert OccursAt(u, p, i);
    } else {
      if i <= |t| {
        var j := |t| - i;
        assert p[j] == ' ';
        assert forall m :: 0 <= m < j ==> p[m] == ':';
        forall m | 0 <= m < |p|
          ensures u[i + 1 + m] == p[m]
        {
          if m < j {
            assert m + 1 < j ==> t[i + m + 1] == s[i + (m + 1)] == p[m + 1] == ':';
          }
        }
      }
      assert u[i + 1..i + 1 + |p|] == p;
      assert OccursAt(u, p, i + 1);
    }
  }

  lemma {:induction false} AllColons(p: string, i: nat, j: nat)
    requires j < i <= |p| && p[i - 1] == ':'
    requires forall m :: 0 <= m < i - 1 ==> p[m] == p[m + 1]
    ensures p[j] == ':'
    decreases i - j
  {
    if j + 1 < i {
      AllColons(p, i, j + 1);
    }
  }

  lemma LostAcross(p: string, i: nat, j: nat)
    requires j < i < |p| && p[i] == ' ' && p[j] != ':'
    ensures !Contains(p[..i] + ": " + p[i + 1..], p)
  {
    var u := p[..i] + ": " + p[i + 1..];
    if Contains(u, p) {
      var x :| 0 <= x <= |u| && OccursAt(u, p, x);
      assert x == 0 || x == 1;
      assert forall m :: 0 <= m < |p| ==> p[m] == u[x..x + |p|][m] == u[x + m];
      assert x == 1 && p[i - 1] == u[i] == ':';
      AllColons(p, i, j);
      assert false;
    }
  }

  /**
  A term that makes a chunk relevant counts as found in the context text for every chunk exactly when
  its spaces come after nothing but colons: the context text has a colon between title and content
  and the text searched for relevance has not.
  */
  lemma RelevantIsFoundExactly(lower: char -> char, term: string)
    requires lower(' ') == ' ' && lower(':') == ':'
    ensures SpaceOnlyAfterColons(LowerAll(lower, term)) <==>
            forall chunk :: HasTerm(lower, chunk, term) ==>
              Contains(LowerAll(lower, ContextText([], [chunk])), LowerAll(lower, term))
  {
    hide LowerAll, Contains;
    var p := LowerAll(lower, term);
    if SpaceOnlyAfterColons(p) {
      forall chunk | HasTerm(lower, chunk, term)
        ensures Contains(LowerAll(lower, ContextText([], [chunk])), p)
      {
        RelevantIsFound(lower, [], [chunk], 0, term);
      }
    } else {
      var i, j :| 0 <= j < i < |p| && p[i] == ' ' && p[j] != ':';
      LowerLength(lower, term);
      LostAcross(p, i, j);
      var chunk := Chunk(term[..i], term[i + 1..]);
      LowerCut(lower, term, i);
      LowerLine(lower, chunk);
      LineAlone(chunk);
      assert p == p[..i] + " " + p[i + 1..];
      Whole(p);
      assert HasTerm(lower, chunk, term);
    }
  }

  lemma Whole(p: string)
    ensures Contains(p, p)
  {
    assert OccursAt(p, p, 0);
  }

  lemma LowerLength(lower: char -> char, s: string)
    ensures |LowerAll(lower, s)| == |s|
  {
  }

  lemma LowerCut(lower: char -> char, s: string, i: nat)
    requires i < |s|
    ensures LowerAll(lower, s[..i]) == LowerAll(lower, s)[..i]
    ensures LowerAll(lower, s[i + 1..]) == LowerAll(lower, s)[i + 1..]
  {
    hide LowerAll;
    assert LowerAll(lower, s[..i]) == LowerAll(lower, s)[..i];
    assert LowerAll(lower, s[i + 1..]) == LowerAll(lower, s)[i + 1..];
  }

  lemma LowerLine(lower: char -> char, chunk: Chunk)
    requires lower(' ') == ' ' && lower(':') == ':'
    ensures var t, c := LowerAll(lower, chunk.title), LowerAll(lower, chunk.content);
            && LowerAll(lower, chunk.title + " " + chunk.content) == t + " " + c
            && LowerAll(lower, chunk.title + ": " + chunk.content) == t + ": " + c
  {
    hide LowerAll;
    var t, c := LowerAll(lower, chunk.title), LowerAll(lower, chunk.content);
    assert LowerAll(lower, chunk.title + " " + chunk.content) == t + " " + c;
    assert LowerAll(lower, chunk.title + ": " + chunk.content) == t + ": " + c;
  }

  lemma LineAlone(chunk: Chunk)
    ensures ContextText([], [chunk]) == chunk.title + ": " + chunk.content
  {
  }

  lemma RelevantIsFound(lower: char -> char, refs: seq<string>, chunks: seq<Chunk>, k: nat, term: string)
    requires lower(' ') == ' ' && lower(':') == ':'
    requires k < |chunks| && HasTerm(lower, chunks[k], term) && SpaceOnlyAfterColons(LowerAll(lower, term))
    ensures Contains(LowerAll(lower, ContextText(refs, chunks)), LowerAll(lower, term))
  {
    hide LowerAll, Contains, Join, SpaceOnlyAfterColons;
    var t, c := LowerAll(lower, chunks[k].title), LowerAll(lower, chunks[k].content);
    LowerLine(lower, chunks[k]);
    FoundAcross(t, c, LowerAll(lower, term));
    var parts := refs + seq(|chunks|, i requires 0 <= i < |chunks| => chunks[i].title + ": " + chunks[i].content);
    var a, b := JoinParts(parts, "\n", |refs| + k);
    Embed(lower, a, parts[|refs| + k], b, term);
  }

  /** So with such terms only, one relevant chunk means one matched term. */
  lemma RelevantMeansMatched(lower: char -> char, terms: seq<string>, refs: seq<string>, chunks: seq<Chunk>)
    requires lower(' ') == ' ' && lower(':') == ':'
    requires forall i :: 0 <= i < |terms| ==> SpaceOnlyAfterColons(LowerAll(lower, terms[i]))
    ensures Relevant(lower, chunks, terms) > 0 ==> Matched(lower, terms, ContextText(refs, chunks)) > 0
  {
    hide LowerAll, Contains, ContextText, Relevant, Matched;
    RelevantBound(lower, chunks, terms);
    if Relevant(lower, chunks, terms) > 0 {
      var k :| 0 <= k < |chunks| && IsRelevant(lower, chunks[k], terms);
      var i :| 0 <= i < |terms| && HasTerm(lower, chunks[k], terms[i]);
      RelevantIsFound(lower, refs, chunks, k, terms[i]);
      OneMatched(lower, terms, ContextText(refs, chunks), i);
    }
  }

  lemma {:induction false} OneMatched(lower: char -> char, terms: seq<string>, text: string, i: nat)
    requires i < |terms| && Contains(LowerAll(lower, text), LowerAll(lower, terms[i]))
    ensures Matched(lower, terms, text) > 0
  {
    hide LowerAll, Contains;
    if i > 0 {
      OneMatched(lower, terms[1..], text, i - 1);
    }
  }
}
