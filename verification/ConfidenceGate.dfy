/** What the confidence score adds to the repeat policy: its range and its direction, what a run needs at the default
    threshold, and what dry runs cost. */
module ConfidenceGate {
  import opened Text
  import opened Sorting
  import opened FailureBlocks
  import opened Triage
  import opened Autofix
  import opened RepeatPolicy
  import FixPlan

  const DEFAULT_CONFIDENCE_THRESHOLD: real := 0.7

  function Hundredths(n: int): real { n as real / 100.0 }

  /** All that is assumed of rounding to two decimals: it keeps hundredths and never turns the order round. Which way a
      tie goes is left open. */
  ghost predicate RoundsToHundredths(round: real -> real) {
    (forall x, y | x <= y :: round(x) <= round(y)) && (forall n :: round(Hundredths(n)) == Hundredths(n))
  }

  lemma RoundedWithin(round: real -> real, x: real, n: int)
    requires RoundsToHundredths(round)
    ensures x <= Hundredths(n) ==> round(x) <= Hundredths(n)
    ensures x >= Hundredths(n) ==> round(x) >= Hundredths(n)
  {
    assert round(Hundredths(n)) == Hundredths(n);
  }

  // ----- The score -----

  lemma RatioIsFraction(planned: nat, excluded: nat)
    ensures 0.0 <= ExclusionRatio(planned, excluded) <= 1.0
  {
    if planned + excluded > 0 { FractionAtMostOne(excluded as real, (planned + excluded) as real); }
  }

  lemma FractionAtMostOne(x: real, y: real)
    requires 0.0 <= x <= y && y > 0.0
    ensures 0.0 <= x / y <= 1.0
  {
  }

  /** Whatever speaks for the first speaks for the second at least as much. */
  ghost predicate SpeaksForMore(a: Evidence, b: Evidence) {
    (a.preferredKinds ==> b.preferredKinds) && (a.priorSuccess ==> b.priorSuccess) && a.failures >= b.failures &&
    ExclusionRatio(a.planned, a.excluded) >= ExclusionRatio(b.planned, b.excluded) &&
    (a.decision == b.decision || a.decision == BlockedRepeatFailure || b.decision == AllowPreferred)
  }

  /** The score lies between 0 and its maximum, and better evidence never lowers it. */
  lemma ConfidenceIsMonotone(a: Evidence, b: Evidence, round: real -> real)
    requires RoundsToHundredths(round)
    ensures 0.0 <= Confidence(a, round) <= MAX_AUTOFIX_CONFIDENCE
    ensures SpeaksForMore(a, b) ==> Confidence(a, round) <= Confidence(b, round)
  {
    if SpeaksForMore(a, b) && a.decision != BlockedRepeatFailure {
      assert Score(a) <= Score(b);
      assert round(Score(a)) <= round(Score(b));
    }
  }

  // ----- What is counted -----

  lemma AttemptsCounted(h: History, signature: string, repairClass: string, le: Compare)
    requires Numbered(h)
    ensures FailedAttempts(h, signature, repairClass, le) > 0 <==>
            exists k | 0 <= k < |h| :: FailedEntry(h[k], signature, repairClass)
  {
    var keep := FailedFor(signature, repairClass);
    var ids := RunIds(h, keep);
    if FailedAttempts(h, signature, repairClass, le) > 0 {
      UniqueTrimmedSpec(ids, UniqueTrimmed(ids, le)[0], le);
      var m :| 0 <= m < |ids| && ids[m] != "" && Trim(ids[m]) == UniqueTrimmed(ids, le)[0];
      var k := ListedRunId(h, keep, ids[m]);
      assert FailedEntry(h[k], signature, repairClass);
    }
    if k :| 0 <= k < |h| && FailedEntry(h[k], signature, repairClass) {
      RunIdListed(h, keep, k);
      RunIdsDistinct(k + 1, k + 1);
      UniqueTrimmedSpec(ids, h[k].runId, le);
    }
  }

  /** Some run failed with one of these repair classes on one of these signatures. */
  ghost predicate FailedBefore(h: History, signatures: seq<string>, classes: seq<string>) {
    exists k, a, b | 0 <= k < |h| && 0 <= a < |signatures| && 0 <= b < |classes| ::
      FailedEntry(h[k], signatures[a], classes[b])
  }

  lemma {:induction false} AttemptsOnExactly(h: History, signature: string, classes: seq<string>, le: Compare)
    requires Numbered(h)
    ensures AttemptsOn(h, signature, classes, le) > 0 <==>
            exists k, b | 0 <= k < |h| && 0 <= b < |classes| :: FailedEntry(h[k], signature, classes[b])
  {
    if classes != [] {
      AttemptsCounted(h, signature, classes[0], le);
      AttemptsOnExactly(h, signature, classes[1..], le);
      assert forall b | 1 <= b < |classes| :: classes[b] == classes[1..][b - 1];
    }
  }

  lemma {:induction false} FailuresExactly(h: History, signatures: seq<string>, classes: seq<string>, le: Compare)
    requires Numbered(h)
    ensures RepeatedFailures(h, signatures, classes, le) > 0 <==> FailedBefore(h, signatures, classes)
  {
    if signatures != [] {
      AttemptsOnExactly(h, signatures[0], classes, le);
      FailuresExactly(h, signatures[1..], classes, le);
      assert forall a | 1 <= a < |signatures| :: signatures[a] == signatures[1..][a - 1];
    }
  }

  ghost predicate HasClass(e: HistoryEntry) { exists c | c in e.repairClasses :: Trim(c) != "" }

  /** A run that met one of these signatures helped, with whatever repair class. */
  ghost predicate Trusted(h: History, signatures: seq<string>) {
    exists k | 0 <= k < |h| ::
      MatchesRun(h[k], signatures) && (h[k].finalStatus == Fixed || h[k].finalStatus == PartiallyFixed) &&
      HasClass(h[k])
  }

  lemma TrustedExactly(h: History, signatures: seq<string>, le: Compare)
    requires Numbered(h)
    ensures PriorSuccess(h, UniqueTrimmed(MatchingRuns(h, signatures), le)) <==> Trusted(h, signatures)
  {
    var matching := UniqueTrimmed(MatchingRuns(h, signatures), le);
    forall k | 0 <= k < |h| ensures h[k].runId in matching <==> MatchesRun(h[k], signatures) {
      MatchingExactly(h, signatures, k, le);
    }
    if k :| 0 <= k < |h| && MatchesRun(h[k], signatures) && HelpedStatus(h[k].finalStatus) && HasClass(h[k]) {
      var c :| c in h[k].repairClasses && Trim(c) != "";
      var j :| 0 <= j < |h[k].repairClasses| && h[k].repairClasses[j] == c;
    }
  }

  lemma HelpedIsTrusted(h: History, signatures: seq<string>, classes: seq<string>)
    requires Clean(classes) && Helped(h, signatures, classes)
    ensures Trusted(h, signatures)
  {
    var k :| 0 <= k < |h| && HelpedRun(h[k], signatures, classes);
    var b :| 0 <= b < |classes| && classes[b] in h[k].repairClasses;
    assert Solid(classes[b]);
  }

  /** What the score is computed from, in terms of what earlier runs did. */
  lemma EvidenceExactly(h: History, findings: seq<Finding>, plan: FixPlan.Plan, le: Compare)
    requires Numbered(h)
    ensures var e, signatures, classes := EvidenceOf(h, findings, plan, le), SignaturesOf(findings, le),
              ClassesOf(plan.tasks, le);
            e.decision == MeantDecision(h, signatures, classes) &&
            (e.priorSuccess <==> Trusted(h, signatures)) &&
            (e.failures > 0 <==> FailedBefore(h, signatures, classes)) &&
            (e.decision == AllowPreferred ==> e.priorSuccess)
  {
    var signatures, classes := SignaturesOf(findings, le), ClassesOf(plan.tasks, le);
    PolicyExactly(h, findings, plan.tasks, le);
    TrustedExactly(h, signatures, le);
    FailuresExactly(h, signatures, classes, le);
    UniqueTrimmedClean(ClassNames(plan.tasks), le);
    if Helped(h, signatures, classes) { HelpedIsTrusted(h, signatures, classes); }
  }

  // ----- The score, exactly -----

  /** How many of the values are in the list. */
  ghost function CountIn(values: seq<string>, list: seq<string>): nat {
    if values == [] then 0 else (if values[0] in list then 1 else 0) + CountIn(values[1..], list)
  }

  /** Every failed run counts once for each of these signatures it met with each of these classes it had. */
  ghost function FailureCount(h: History, signatures: seq<string>, classes: seq<string>): nat {
    if h == [] then 0
    else
      var e := h[|h| - 1];
      FailureCount(h[..|h| - 1], signatures, classes) +
      if FailedRun(e) then CountIn(signatures, e.signatures) * CountIn(classes, e.repairClasses) else 0
  }

  /** The counted ids are distinct and trimmed, so counting them counts the runs. */
  lemma {:induction false} IdsKept(h: History, keep: HistoryEntry -> bool)
    requires Numbered(h)
    ensures NoDuplicates(RunIds(h, keep)) && forall id | id in RunIds(h, keep) :: Solid(id)
  {
    if h != [] {
      var n := |h| - 1;
      var earlier := RunIds(h[..n], keep);
      IdsKept(h[..n], keep);
      RunIdsDistinct(n + 1, n + 1);
      forall id | id in earlier ensures id != h[n].runId {
        var k := ListedRunId(h[..n], keep, id);
        RunIdsDistinct(k + 1, n + 1);
      }
      forall k | 0 <= k < |earlier| ensures earlier[k] != h[n].runId { assert earlier[k] in earlier; }
    }
  }

  lemma {:induction false} TrimmedSolid(values: seq<string>)
    requires forall v | v in values :: Solid(v)
    ensures Trimmed(values) == values
  {
    if values != [] {
      var n := |values| - 1;
      assert values[n] in values;
      TrimmedSolid(values[..n]);
      assert values == values[..n] + [values[n]];
    }
  }

  lemma AttemptsAreIds(h: History, signature: string, repairClass: string, le: Compare)
    requires Numbered(h)
    ensures FailedAttempts(h, signature, repairClass, le) == |RunIds(h, FailedFor(signature, repairClass))|
  {
    var ids := RunIds(h, FailedFor(signature, repairClass));
    IdsKept(h, FailedFor(signature, repairClass));
    TrimmedSolid(ids);
    DedupIdentity(ids);
    SortPermutes(ids, le);
  }

  lemma AttemptsNext(h: History, signature: string, repairClass: string, le: Compare)
    requires Numbered(h) && h != []
    ensures FailedAttempts(h, signature, repairClass, le) ==
            FailedAttempts(h[..|h| - 1], signature, repairClass, le) +
            if FailedEntry(h[|h| - 1], signature, repairClass) then 1 else 0
  {
    assert Numbered(h[..|h| - 1]);
    AttemptsAreIds(h, signature, repairClass, le);
    AttemptsAreIds(h[..|h| - 1], signature, repairClass, le);
  }

  lemma {:induction false} AttemptsOnNext(h: History, signature: string, classes: seq<string>, le: Compare)
    requires Numbered(h) && h != []
    ensures var e := h[|h| - 1];
            AttemptsOn(h, signature, classes, le) ==
            AttemptsOn(h[..|h| - 1], signature, classes, le) +
            if FailedRun(e) && signature in e.signatures then CountIn(classes, e.repairClasses) else 0
  {
    if classes != [] {
      AttemptsNext(h, signature, classes[0], le);
      AttemptsOnNext(h, signature, classes[1..], le);
    }
  }

  lemma OneMoreTimes(m: nat, n: nat, one: bool)
    ensures ((if one then 1 else 0) + m) * n == (if one then n else 0) + m * n
  {
  }

  lemma {:induction false} RepeatedNext(h: History, signatures: seq<string>, classes: seq<string>, le: Compare)
    requires Numbered(h) && h != []
    ensures var e := h[|h| - 1];
            RepeatedFailures(h, signatures, classes, le) ==
            RepeatedFailures(h[..|h| - 1], signatures, classes, le) +
            if FailedRun(e) then CountIn(signatures, e.signatures) * CountIn(classes, e.repairClasses) else 0
  {
    if signatures != [] {
      var e := h[|h| - 1];
      AttemptsOnNext(h, signatures[0], classes, le);
      RepeatedNext(h, signatures[1..], classes, le);
      OneMoreTimes(CountIn(signatures[1..], e.signatures), CountIn(classes, e.repairClasses),
                   signatures[0] in e.signatures);
    }
  }

  lemma {:induction false} NothingRepeated(signatures: seq<string>, classes: seq<string>, le: Compare)
    ensures RepeatedFailures([], signatures, classes, le) == 0
  {
    FailuresExactly([], signatures, classes, le);
  }

  lemma {:induction false} FailuresCounted(h: History, signatures: seq<string>, classes: seq<string>, le: Compare)
    requires Numbered(h)
    ensures RepeatedFailures(h, signatures, classes, le) == FailureCount(h, signatures, classes)
  {
    if h == [] {
      NothingRepeated(signatures, classes, le);
    } else {
      assert Numbered(h[..|h| - 1]);
      FailuresCounted(h[..|h| - 1], signatures, classes, le);
      RepeatedNext(h, signatures, classes, le);
    }
  }

  /** There are findings, and all are snapshot drifts, stale assertions or ordering drifts. */
  ghost predicate PreferredKinds(findings: seq<Finding>) {
    findings != [] &&
    forall f | f in findings ::
      f.facts.kind == SnapshotDrift || f.facts.kind == StaleAssertion || f.facts.kind == OrderingDrift
  }

  lemma PreferredKindsExactly(findings: seq<Finding>)
    ensures OnlyPreferredKinds(findings) <==> PreferredKinds(findings)
  {
    if OnlyPreferredKinds(findings) {
      forall f | f in findings ensures PreferredKind(f.facts.kind) {
        var k :| 0 <= k < |findings| && findings[k] == f;
      }
    }
    if PreferredKinds(findings) {
      forall k | 0 <= k < |findings| ensures PreferredKind(findings[k].facts.kind) { assert findings[k] in findings; }
    }
  }

  /** The share of the findings that became tasks, nothing if there is none. */
  ghost function TaskShare(planned: nat, excluded: nat): real {
    if planned == 0 then 0.0 else planned as real / (planned + excluded) as real
  }

  lemma ShareIsTheRest(planned: nat, excluded: nat)
    ensures TaskShare(planned, excluded) == 1.0 - ExclusionRatio(planned, excluded)
  {
    if planned + excluded > 0 { PartsOfOne(planned as real, excluded as real, (planned + excluded) as real); }
  }

  lemma PartsOfOne(x: real, y: real, z: real)
    requires x + y == z && z > 0.0
    ensures x / z == 1.0 - y / z
  {
    assert x / z + y / z == (x + y) / z == 1.0;
  }

  /** The unrounded score: a base, the kinds, earlier success, counted failures, the share of tasks, and whether a
      run helped with a repair class of the plan or the case is unclear. */
  ghost function MeantScore(h: History, findings: seq<Finding>, plan: FixPlan.Plan, le: Compare): real {
    var signatures, classes := SignaturesOf(findings, le), ClassesOf(plan.tasks, le);
    var failures := FailureCount(h, signatures, classes);
    0.25 + (if PreferredKinds(findings) then 0.35 else 0.1) + (if Trusted(h, signatures) then 0.2 else 0.0) -
    (if failures > 3 then 0.3 else failures as real * 0.1) +
    TaskShare(|plan.tasks|, |plan.excluded|) * 0.15 +
    (if Helped(h, signatures, classes) then 0.1 else if Unclear(h, signatures, classes) then -0.15 else 0.0)
  }

  ghost function Bounded(x: real): real { if x > 0.95 then 0.95 else if x < 0.0 then 0.0 else x }

  lemma HelpedIsMatched(h: History, signatures: seq<string>, classes: seq<string>)
    ensures Helped(h, signatures, classes) ==> Matched(h, signatures)
  {
    if k :| 0 <= k < |h| && HelpedRun(h[k], signatures, classes) { assert MatchesRun(h[k], signatures); }
  }

  /** The score on a history that the command wrote: zero if the repair failed twice, and otherwise the sum above,
      rounded and kept between 0 and 0.95. */
  lemma ConfidenceExactly(h: History, findings: seq<Finding>, plan: FixPlan.Plan, le: Compare, round: real -> real)
    requires Numbered(h)
    ensures var score := round(MeantScore(h, findings, plan, le));
            Confidence(EvidenceOf(h, findings, plan, le), round) ==
            if KnownBad(h, SignaturesOf(findings, le), ClassesOf(plan.tasks, le)) then 0.0 else Bounded(score)
  {
    var signatures, classes := SignaturesOf(findings, le), ClassesOf(plan.tasks, le);
    EvidenceExactly(h, findings, plan, le);
    FailuresCounted(h, signatures, classes, le);
    PreferredKindsExactly(findings);
    HelpedIsMatched(h, signatures, classes);
    MeantStops(h, signatures, classes);
    if !KnownBad(h, signatures, classes) { ScoreIsMeant(h, findings, plan, le); }
  }

  lemma ScoreIsMeant(h: History, findings: seq<Finding>, plan: FixPlan.Plan, le: Compare)
    requires Numbered(h) && !KnownBad(h, SignaturesOf(findings, le), ClassesOf(plan.tasks, le))
    ensures Score(EvidenceOf(h, findings, plan, le)) == MeantScore(h, findings, plan, le)
  {
    var signatures, classes := SignaturesOf(findings, le), ClassesOf(plan.tasks, le);
    EvidenceExactly(h, findings, plan, le);
    FailuresCounted(h, signatures, classes, le);
    PreferredKindsExactly(findings);
    HelpedIsMatched(h, signatures, classes);
    ShareIsTheRest(|plan.tasks|, |plan.excluded|);
    MeantStops(h, signatures, classes);
  }

  /** Apply is attempted exactly in apply mode, with a task, without a repair that failed twice or an unclear case, and
      if the sum above, rounded and kept in bounds, reaches the rounded threshold. */
  lemma GateExactly(h: History, i: Input, s: Setup)
    requires Numbered(h) && !Throws(h, i, s)
    ensures ReportFor(h, i, s).apply.attempted <==>
            i.mode == ApplyMode && PlanFor(i.log, s).tasks != [] && !LogKnownBad(h, i.log, s) &&
            !LogUnclear(h, i.log, s) &&
            Bounded(s.round(MeantScore(h, FindingsFor(i.log, s), PlanFor(i.log, s), s.le))) >= s.round(i.threshold)
  {
    AppliesExactly(h, i, s);
    ConfidenceExactly(h, FindingsFor(i.log, s), PlanFor(i.log, s), s.le, s.round);
  }

  // ----- The default threshold -----

  /** What a log scores that no history speaks for or against. */
  function PlainScore(findings: seq<Finding>, plan: FixPlan.Plan): real {
    0.25 + (if OnlyPreferredKinds(findings) then 0.35 else 0.1) +
    0.15 * (1.0 - ExclusionRatio(|plan.tasks|, |plan.excluded|))
  }

  /** Without an earlier success the score reaches the default threshold only without a counted failure and with
      preferred kinds alone, and then it is the plain score. */
  lemma UntrustedConfidence(e: Evidence, findings: seq<Finding>, plan: FixPlan.Plan, round: real -> real)
    requires RoundsToHundredths(round) && !e.priorSuccess && (e.decision == NoHistory || e.decision == AllowRepair)
    requires e.preferredKinds == OnlyPreferredKinds(findings) && e.planned == |plan.tasks| &&
             e.excluded == |plan.excluded|
    ensures e.failures > 0 || !e.preferredKinds ==> Confidence(e, round) < DEFAULT_CONFIDENCE_THRESHOLD
    ensures e.failures == 0 ==> Confidence(e, round) == Clamped(PlainScore(findings, plan), round)
    ensures e.failures == 0 ==> 0.0 <= round(PlainScore(findings, plan)) <= 0.75
  {
    RatioIsFraction(e.planned, e.excluded);
    RoundedWithin(round, Score(e), 65);
    RoundedWithin(round, Score(e), 0);
    RoundedWithin(round, Score(e), 75);
    if e.failures == 0 { assert Score(e) == PlainScore(findings, plan); }
  }

  ghost predicate LogTrusted(h: History, log: string, s: Setup) { Trusted(h, LogSignatures(log, s)) }

  ghost predicate LogFailedBefore(h: History, log: string, s: Setup) {
    FailedBefore(h, LogSignatures(log, s), LogClasses(log, s))
  }

  /** The evidence of a run that nothing stops. */
  lemma FreeEvidence(h: History, log: string, s: Setup)
    requires Numbered(h)
    ensures var e := EvidenceOf(h, FindingsFor(log, s), PlanFor(log, s), s.le);
            (e.priorSuccess <==> LogTrusted(h, log, s)) && (e.failures > 0 <==> LogFailedBefore(h, log, s)) &&
            (StopFor(h, log, s) == None && !e.priorSuccess ==> e.decision == NoHistory || e.decision == AllowRepair)
  {
    EvidenceExactly(h, FindingsFor(log, s), PlanFor(log, s), s.le);
    StopIsNeverFixed(FindingsFor(log, s), PlanFor(log, s), DecisionFor(h, log, s));
  }

  lemma BadFailedBefore(h: History, signatures: seq<string>, classes: seq<string>)
    ensures KnownBad(h, signatures, classes) ==> FailedBefore(h, signatures, classes)
  {
    if a, b :| 0 <= a < |signatures| && 0 <= b < |classes| && TwoFailed(h, signatures[a], classes[b]) {
      var j, k :| 0 <= j < k < |h| && FailedEntry(h[j], signatures[a], classes[b]) &&
                  FailedEntry(h[k], signatures[a], classes[b]);
      assert FailedEntry(h[j], signatures[a], classes[b]);
    }
  }

  /** At a threshold t of at least the default, and as long as no run that met a signature of the log helped, apply is
      attempted exactly if the mode is apply, the plan has a task, no run failed with a repair class of the plan on a
      signature of the log, the case is not unclear, all findings are of preferred kinds, and the plain score
      reaches t. */
  lemma DefaultGateExactly(h: History, i: Input, s: Setup)
    requires Numbered(h) && !Throws(h, i, s) && RoundsToHundredths(s.round)
    requires i.threshold >= DEFAULT_CONFIDENCE_THRESHOLD && !LogTrusted(h, i.log, s)
    ensures ReportFor(h, i, s).apply.attempted <==>
            i.mode == ApplyMode && PlanFor(i.log, s).tasks != [] && !LogFailedBefore(h, i.log, s) &&
            !LogUnclear(h, i.log, s) && PreferredKinds(FindingsFor(i.log, s)) &&
            s.round(PlainScore(FindingsFor(i.log, s), PlanFor(i.log, s))) >= s.round(i.threshold)
  {
    AppliesExactly(h, i, s);
    GoesOnExactly(h, i.log, s);
    BadFailedBefore(h, LogSignatures(i.log, s), LogClasses(i.log, s));
    RoundedWithin(s.round, i.threshold, 70);
    PreferredKindsExactly(FindingsFor(i.log, s));
    if StopFor(h, i.log, s) == None { UntrustedGate(h, i.log, s); }
  }

  lemma UntrustedGate(h: History, log: string, s: Setup)
    requires Numbered(h) && RoundsToHundredths(s.round) && StopFor(h, log, s) == None && !LogTrusted(h, log, s)
    ensures LogFailedBefore(h, log, s) || !OnlyPreferredKinds(FindingsFor(log, s)) ==>
              ConfidenceFor(h, log, s) < DEFAULT_CONFIDENCE_THRESHOLD
    ensures !LogFailedBefore(h, log, s) ==>
              ConfidenceFor(h, log, s) == s.round(PlainScore(FindingsFor(log, s), PlanFor(log, s)))
  {
    FreeEvidence(h, log, s);
    UntrustedConfidence(EvidenceOf(h, FindingsFor(log, s), PlanFor(log, s), s.le), FindingsFor(log, s), PlanFor(log, s),
                        s.round);
  }

  /** An attempt at the default threshold or above, on a signature and with a repair class on which an earlier run
      failed, comes after a run that met one of its signatures and helped. */
  ghost predicate RetriesAreTrusted(h: History) {
    forall j, n, signature, repairClass | 0 <= j < n < |h| && Attempt(h[n], signature, repairClass) &&
        FailedEntry(h[j], signature, repairClass) && h[n].threshold >= DEFAULT_CONFIDENCE_THRESHOLD ::
      Trusted(h[..n], h[n].signatures)
  }

  lemma TrustedRetry(h: History, i: Input, s: Setup, j: nat, signature: string, repairClass: string)
    requires Numbered(h) && !Throws(h, i, s) && RoundsToHundredths(s.round) && j < |h|
    requires ReportFor(h, i, s).apply.attempted && s.round(i.threshold) >= DEFAULT_CONFIDENCE_THRESHOLD
    requires FailedEntry(h[j], signature, repairClass)
    requires signature in LogSignatures(i.log, s) && repairClass in LogClasses(i.log, s)
    ensures LogTrusted(h, i.log, s)
  {
    var a :| 0 <= a < |LogSignatures(i.log, s)| && LogSignatures(i.log, s)[a] == signature;
    var b :| 0 <= b < |LogClasses(i.log, s)| && LogClasses(i.log, s)[b] == repairClass;
    assert FailedEntry(h[j], LogSignatures(i.log, s)[a], LogClasses(i.log, s)[b]);
    FactsFor(h, i, s);
    if !LogTrusted(h, i.log, s) { UntrustedGate(h, i.log, s); }
  }

  lemma RetriesExtended(h: History, e: HistoryEntry)
    requires RetriesAreTrusted(h)
    requires forall j, signature, repairClass | 0 <= j < |h| && FailedEntry(h[j], signature, repairClass) &&
                 Attempt(e, signature, repairClass) && e.threshold >= DEFAULT_CONFIDENCE_THRESHOLD ::
                   Trusted(h, e.signatures)
    ensures RetriesAreTrusted(h + [e])
  {
    var after := h + [e];
    forall j, n, signature, repairClass | 0 <= j < n < |after| && Attempt(after[n], signature, repairClass) &&
        FailedEntry(after[j], signature, repairClass) && after[n].threshold >= DEFAULT_CONFIDENCE_THRESHOLD
      ensures Trusted(after[..n], after[n].signatures)
    {
      if n < |h| {
        assert Attempt(h[n], signature, repairClass) && FailedEntry(h[j], signature, repairClass);
        assert after[..n] == h[..n];
      } else {
        assert FailedEntry(h[j], signature, repairClass);
        assert after[..n] == h;
      }
    }
  }

  lemma NextRetryIsTrusted(h: History, i: Input, s: Setup)
    requires Numbered(h) && RetriesAreTrusted(h) && RoundsToHundredths(s.round)
    ensures RetriesAreTrusted(After(h, i, s))
  {
    if !Throws(h, i, s) {
      var e := EntryFor(h, i, s, ReportFor(h, i, s));
      FactsFor(h, i, s);
      forall j, signature, repairClass | 0 <= j < |h| && FailedEntry(h[j], signature, repairClass) &&
          Attempt(e, signature, repairClass) && e.threshold >= DEFAULT_CONFIDENCE_THRESHOLD
        ensures Trusted(h, e.signatures)
      {
        TrustedRetry(h, i, s, j, signature, repairClass);
      }
      RetriesExtended(h, e);
    }
  }

  /** Safety over every sequence of runs: at the default threshold or above one failure is enough. No run attempts apply
      with a repair class on a signature on which an earlier run failed with it, unless a run that met one of its
      signatures helped before. */
  lemma {:induction false} NoUntrustedRetry(inputs: seq<Input>, s: Setup)
    requires RoundsToHundredths(s.round)
    ensures RetriesAreTrusted(HistoryOf(inputs, s))
  {
    if inputs != [] {
      NoUntrustedRetry(inputs[..|inputs| - 1], s);
      HistoryIsNumbered(inputs[..|inputs| - 1], s);
      NextRetryIsTrusted(HistoryOf(inputs[..|inputs| - 1], s), inputs[|inputs| - 1], s);
    }
  }

  // ----- What dry runs cost -----

  /** Values that are all one trimmed string leave that string. */
  lemma OneValue(values: seq<string>, x: string, le: Compare)
    requires values != [] && Solid(x) && forall v | v in values :: v == x
    ensures |UniqueTrimmed(values, le)| == 1
  {
    assert values[0] in values;
    forall v | v in values ensures Solid(v) { }
    forall y ensures y in UniqueTrimmed(values, le) <==> y in values { TrimmedAlready(values, y, le); }
    UniqueTrimmedSpec(values, x, le);
    OnlyMember(UniqueTrimmed(values, le), x);
  }

  lemma OneFailureCounts(h: History, signature: string, repairClass: string, le: Compare)
    requires Numbered(h) && |h| == 1 && FailedEntry(h[0], signature, repairClass)
    ensures FailedAttempts(h, signature, repairClass, le) == 1
  {
    var keep := FailedFor(signature, repairClass);
    var ids := RunIds(h, keep);
    assert keep(h[0]) && RunIds(h[..0], keep) == [];
    assert ids == [h[0].runId];
    RunIdsDistinct(1, 1);
    OneValue(ids, h[0].runId, le);
  }

  lemma SingleSum(h: History, signatures: seq<string>, classes: seq<string>, le: Compare)
    requires |signatures| == 1 && |classes| == 1
    ensures RepeatedFailures(h, signatures, classes, le) == FailedAttempts(h, signatures[0], classes[0], le)
  {
    assert AttemptsOn(h, signatures[0], classes[1..], le) == 0;
    assert RepeatedFailures(h, signatures[1..], classes, le) == 0;
  }

  /** The failures counted after no dry run, or after one on a log with one signature and one repair class. */
  lemma DryFailures(h: History, signatures: seq<string>, classes: seq<string>, le: Compare)
    requires DryHistory(h, signatures, classes) && |h| <= 1 && (h == [] || (|signatures| == 1 && |classes| == 1))
    ensures RepeatedFailures(h, signatures, classes, le) == |h|
    ensures !Trusted(h, signatures)
  {
    if h == [] {
      FailuresExactly(h, signatures, classes, le);
    } else {
      assert FailedEntry(h[0], signatures[0], classes[0]);
      OneFailureCounts(h, signatures[0], classes[0], le);
      SingleSum(h, signatures, classes, le);
    }
  }

  /** What findings score that no run met before, and with one dry run on record. */
  function DryRunScore(n: nat, findings: seq<Finding>, plan: FixPlan.Plan, round: real -> real): real {
    Clamped(PlainScore(findings, plan) - (if n == 0 then 0.0 else 0.1), round)
  }

  function ScoreAfterDryRuns(n: nat, log: string, s: Setup): real {
    DryRunScore(n, FindingsFor(log, s), PlanFor(log, s), s.round)
  }

  lemma DryScore(e: Evidence, n: nat, findings: seq<Finding>, plan: FixPlan.Plan, round: real -> real)
    requires !e.priorSuccess && (e.decision == NoHistory || e.decision == AllowRepair) && e.failures == n <= 1
    requires e.preferredKinds == OnlyPreferredKinds(findings) && e.planned == |plan.tasks| &&
             e.excluded == |plan.excluded|
    ensures Confidence(e, round) == DryRunScore(n, findings, plan, round)
  {
    assert Score(e) == PlainScore(findings, plan) - (if n == 0 then 0.0 else 0.1);
  }

  /** No dry run, or one on a log with one signature and one repair class. */
  ghost predicate FewDryRuns(h: History, signatures: seq<string>, classes: seq<string>) {
    DryHistory(h, signatures, classes) && (|h| == 0 || (|h| == 1 && |signatures| == 1 && |classes| == 1))
  }

  lemma DryEvidence(h: History, findings: seq<Finding>, plan: FixPlan.Plan, le: Compare)
    requires FewDryRuns(h, SignaturesOf(findings, le), ClassesOf(plan.tasks, le))
    ensures var e := EvidenceOf(h, findings, plan, le);
            e.failures == |h| && !e.priorSuccess && e.preferredKinds == OnlyPreferredKinds(findings) &&
            e.planned == |plan.tasks| && e.excluded == |plan.excluded| &&
            (e.decision == NoHistory || e.decision == AllowRepair)
  {
    PolicyExactly(h, findings, plan.tasks, le);
    if h != [] { DryDecision(h, SignaturesOf(findings, le), ClassesOf(plan.tasks, le)); }
    DryFailures(h, SignaturesOf(findings, le), ClassesOf(plan.tasks, le), le);
    TrustedExactly(h, SignaturesOf(findings, le), le);
  }

  lemma DryConfidenceOf(h: History, findings: seq<Finding>, plan: FixPlan.Plan, le: Compare, round: real -> real)
    requires FewDryRuns(h, SignaturesOf(findings, le), ClassesOf(plan.tasks, le))
    ensures Confidence(EvidenceOf(h, findings, plan, le), round) == DryRunScore(|h|, findings, plan, round)
  {
    DryEvidence(h, findings, plan, le);
    DryScore(EvidenceOf(h, findings, plan, le), |h|, findings, plan, round);
  }

  lemma DryConfidence(h: History, log: string, s: Setup)
    requires FewDryRuns(h, LogSignatures(log, s), LogClasses(log, s))
    ensures ConfidenceFor(h, log, s) == ScoreAfterDryRuns(|h|, log, s)
  {
    DryConfidenceOf(h, FindingsFor(log, s), PlanFor(log, s), s.le, s.round);
  }

  /** A run that does not throw and attempts apply. */
  ghost predicate Attempts(h: History, i: Input, s: Setup) { !Throws(h, i, s) && ReportFor(h, i, s).apply.attempted }

  /** After these dry runs, a run in apply mode that does not throw attempts apply exactly on this condition. */
  ghost predicate AttemptsExactlyIf(runs: seq<Input>, i: Input, s: Setup, condition: bool) {
    !Throws(HistoryOf(runs, s), i, s) && i.mode == ApplyMode ==> (Attempts(HistoryOf(runs, s), i, s) <==> condition)
  }

  /** Dry runs mutate nothing and yet cost repairs. On a log that nothing stops at first, after any number of dry runs
      from an empty history, apply is attempted exactly if there was none and the first score reaches the
      threshold, or one, the log has one signature and one repair class, and the score less a tenth reaches it. */
  lemma RepairAfterDryRunsExactly(runs: seq<Input>, i: Input, s: Setup)
    requires DryRunsOn(runs, i.log) && Repairable(i.log, s)
    ensures AttemptsExactlyIf(runs, i, s, (|runs| == 0 || (|runs| == 1 && Single(i.log, s))) &&
                                          ScoreAfterDryRuns(|runs|, i.log, s) >= s.round(i.threshold))
  {
    var h := HistoryOf(runs, s);
    DryRunsExactly(runs, i.log, s);
    GoesOnExactly([], i.log, s);
    HistoryOfDryRuns(runs, i.log, s);
    if !Throws(h, i, s) {
      FactsFor(h, i, s);
      if |runs| == 0 || (|runs| == 1 && Single(i.log, s)) { DryConfidence(h, i.log, s); }
    }
  }

  lemma LessATenth(n: nat, findings: seq<Finding>, plan: FixPlan.Plan, round: real -> real)
    requires RoundsToHundredths(round)
    ensures n > 0 ==> DryRunScore(n, findings, plan, round) < DEFAULT_CONFIDENCE_THRESHOLD
  {
    RatioIsFraction(|plan.tasks|, |plan.excluded|);
    RoundedWithin(round, PlainScore(findings, plan) - 0.1, 65);
  }

  lemma LowAfterDryRun(n: nat, log: string, s: Setup)
    requires RoundsToHundredths(s.round)
    ensures n > 0 ==> ScoreAfterDryRuns(n, log, s) < DEFAULT_CONFIDENCE_THRESHOLD
  {
    LessATenth(n, FindingsFor(log, s), PlanFor(log, s), s.round);
  }

  /** So at the default threshold or above a single dry run on any log costs the repair. */
  lemma DryRunCostsRepair(runs: seq<Input>, i: Input, s: Setup)
    requires DryRunsOn(runs, i.log) && Repairable(i.log, s)
    requires RoundsToHundredths(s.round) && i.threshold >= DEFAULT_CONFIDENCE_THRESHOLD
    ensures AttemptsExactlyIf(runs, i, s, |runs| == 0 && ScoreAfterDryRuns(0, i.log, s) >= s.round(i.threshold))
  {
    LowAfterDryRun(|runs|, i.log, s);
    RoundedWithin(s.round, i.threshold, 70);
    RepairAfterDryRunsExactly(runs, i, s);
  }
}
