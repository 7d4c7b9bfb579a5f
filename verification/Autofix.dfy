/** The gated executor: triage, plan, repeat policy, confidence gate, apply, verification and history. */
module Autofix {
  import opened Text
  import opened Sorting
  import opened FailureBlocks
  import opened Triage
  import FixPlan

  type Compare = (string, string) -> bool

  datatype Mode = DryRun | ApplyMode
  datatype FinalStatus = Fixed | PartiallyFixed | NotFixed | Blocked | BlockedLowConfidence | ReviewRequiredOnly
  datatype RetryDecision = NoHistory | BlockedRepeatFailure | AllowPreferred | ReviewRepeatFailure | AllowRepair

  /** How a child process ended: its exit status, if any, and whether starting it failed. */
  datatype Completed = Completed(status: Option<nat>, spawnError: bool)
  datatype CommandResult = CommandResult(command: string, exitCode: nat, ok: bool)
  datatype VerificationSummary = VerificationSummary(attempted: bool, ok: bool, total: nat, passed: nat, failed: nat)
  datatype ApplySummary = ApplySummary(attempted: bool, ok: bool)

  /** What the apply command reports; None where it throws. */
  datatype ApplyReport = ApplyReport(ok: bool, appliedTaskIds: seq<string>)

  datatype HistoryEntry = HistoryEntry(runId: string, mode: Mode, decision: RetryDecision, signatures: seq<string>,
                                       repairClasses: seq<string>, finalStatus: FinalStatus, applyAttempted: bool,
                                       threshold: real, confidence: real)
  type History = seq<HistoryEntry>

  datatype Report = Report(runId: string, decision: RetryDecision, confidence: real, threshold: real, wouldApply: bool,
                           apply: ApplySummary, verification: VerificationSummary, executed: seq<CommandResult>,
                           appliedTaskIds: seq<string>, excludedTotal: nat, finalStatus: FinalStatus)

  const SUCCESS: nat := 0
  const FAILURE: nat := 1
  const ENVIRONMENT_PREREQ: nat := 2

  /** Everything a run reads from outside: the log, the options, and what the apply command and child processes do. */
  datatype Input = Input(log: string, mode: Mode, threshold: real, apply: Option<ApplyReport>,
                         processes: string -> Completed)

  /** The interpretation shared by all runs: oracles of the triage, the digest of task ids, and the rounding to two
      decimals. */
  datatype Setup = Setup(oracles: Oracles, digest: string -> string, le: Compare, round: real -> real)

  // ----- Verification commands -----

  function ResultOf(command: string, processes: string -> Completed): CommandResult {
    var c := processes(command);
    var exitCode := if c.status.Some? then c.status.value else if c.spawnError then ENVIRONMENT_PREREQ else FAILURE;
    CommandResult(command, exitCode, exitCode == 0)
  }

  /** The results up to and including the first failure. */
  function Executed(commands: seq<string>, processes: string -> Completed): seq<CommandResult> {
    if commands == [] then []
    else
      var first := ResultOf(commands[0], processes);
      [first] + if first.ok then Executed(commands[1..], processes) else []
  }

  function Passed(results: seq<CommandResult>): (n: nat)
    ensures n <= |results|
  {
    if results == [] then 0 else Passed(results[..|results| - 1]) + if results[|results| - 1].ok then 1 else 0
  }

  function SummaryOf(commands: seq<string>, results: seq<CommandResult>): VerificationSummary {
    VerificationSummary(|commands| > 0,
                        |commands| > 0 && |results| == |commands| && forall i | 0 <= i < |results| :: results[i].ok,
                        |commands|, Passed(results), |results| - Passed(results))
  }

  method RunVerificationPlan(commands: seq<string>, processes: string -> Completed)
    returns (results: seq<CommandResult>, summary: VerificationSummary)
    ensures results == Executed(commands, processes) && summary == SummaryOf(commands, results)
  {
    results := [];
    for n := 0 to |commands|
      invariant Executed(commands, processes) == results + Executed(commands[n..], processes)
    {
      var completed := ResultOf(commands[n], processes);
      assert commands[n..][1..] == commands[n + 1..];
      ghost var before := results;
      results := results + [completed];
      if !completed.ok {
        assert Executed(commands[n..], processes) == [completed];
        break;
      }
      assert Executed(commands[n..], processes) == [completed] + Executed(commands[n + 1..], processes);
      assert before + ([completed] + Executed(commands[n + 1..], processes)) ==
             results + Executed(commands[n + 1..], processes);
    }
    assert results + [] == results;
    summary := SummaryOf(commands, results);
  }

  /** The executed commands are a prefix of the plan; every one but the last passed, and if the plan was cut short the
      last failed. */
  lemma {:induction false} ExecutedIsPrefix(commands: seq<string>, processes: string -> Completed)
    ensures var results := Executed(commands, processes);
            |results| <= |commands| &&
            (forall i | 0 <= i < |results| :: results[i] == ResultOf(commands[i], processes)) &&
            (forall i | 0 <= i < |results| - 1 :: results[i].ok) &&
            (|results| < |commands| ==> |results| > 0 && !results[|results| - 1].ok)
  {
    if commands != [] {
      ExecutedIsPrefix(commands[1..], processes);
      var results, rest := Executed(commands, processes), Executed(commands[1..], processes);
      if results[0].ok {
        assert forall i | 1 <= i < |results| :: results[i] == rest[i - 1] && commands[i] == commands[1..][i - 1];
      }
    }
  }

  /** Verification is ok exactly when there are commands and each of them exits with status zero. */
  lemma VerificationOkExactly(commands: seq<string>, processes: string -> Completed)
    ensures SummaryOf(commands, Executed(commands, processes)).ok <==>
            commands != [] && forall c | c in commands :: processes(c).status == Some(0)
  {
    ExecutedIsPrefix(commands, processes);
    var results := Executed(commands, processes);
    if forall c | c in commands :: processes(c).status == Some(0) {
      forall i | 0 <= i < |results| ensures results[i].ok { assert commands[i] in commands; }
    }
    if SummaryOf(commands, results).ok {
      forall c | c in commands ensures processes(c).status == Some(0) {
        var i :| 0 <= i < |commands| && commands[i] == c;
        assert results[i].ok;
      }
    }
  }

  lemma {:induction false} AllPassed(results: seq<CommandResult>)
    requires forall i | 0 <= i < |results| :: results[i].ok
    ensures Passed(results) == |results|
  {
    if results != [] { AllPassed(results[..|results| - 1]); }
  }

  /** At most one command fails, the last that ran; all others that ran passed. */
  lemma VerificationCounts(commands: seq<string>, processes: string -> Completed)
    ensures var results := Executed(commands, processes);
            var s := SummaryOf(commands, results);
            (s.attempted <==> commands != []) && s.total == |commands| && s.passed + s.failed == |results| &&
            s.failed == (if commands == [] || s.ok then 0 else 1)
  {
    ExecutedIsPrefix(commands, processes);
    var results := Executed(commands, processes);
    if results != [] {
      AllPassed(results[..|results| - 1]);
      if results[|results| - 1].ok { AllPassed(results); }
    }
  }

  // ----- The repeat policy -----

  function Signatures(findings: seq<Finding>): (r: seq<string>)
    ensures |r| == |findings| && forall i | 0 <= i < |findings| :: r[i] == findings[i].signature
  {
    if findings == [] then [] else [findings[0].signature] + Signatures(findings[1..])
  }

  function ClassNames(tasks: seq<FixPlan.Task>): (r: seq<string>)
    ensures |r| == |tasks| && forall i | 0 <= i < |tasks| :: r[i] == FixPlan.TaskKindName(tasks[i].taskKind)
  {
    if tasks == [] then [] else [FixPlan.TaskKindName(tasks[0].taskKind)] + ClassNames(tasks[1..])
  }

  predicate FailedStatusOf(s: FinalStatus) { s == Blocked || s == BlockedLowConfidence || s == NotFixed }

  predicate HelpedStatus(s: FinalStatus) { s == Fixed || s == PartiallyFixed }

  function RunIds(h: History, keep: HistoryEntry -> bool): seq<string> {
    if h == [] then []
    else RunIds(h[..|h| - 1], keep) + if keep(h[|h| - 1]) then [h[|h| - 1].runId] else []
  }

  function FailedFor(signature: string, repairClass: string): HistoryEntry -> bool {
    (e: HistoryEntry) => signature in e.signatures && FailedStatusOf(e.finalStatus) && repairClass in e.repairClasses
  }

  function FailedAttempts(h: History, signature: string, repairClass: string, le: Compare): nat {
    |UniqueTrimmed(RunIds(h, FailedFor(signature, repairClass)), le)|
  }

  predicate Seen(h: History, signature: string) { exists i | 0 <= i < |h| :: signature in h[i].signatures }

  function ListsSignature(signature: string): HistoryEntry -> bool { (e: HistoryEntry) => signature in e.signatures }

  function MatchingRuns(h: History, signatures: seq<string>): seq<string> {
    if signatures == [] then [] else RunIds(h, ListsSignature(signatures[0])) + MatchingRuns(h, signatures[1..])
  }

  predicate BlockedAttempt(h: History, signatures: seq<string>, classes: seq<string>, le: Compare) {
    exists i, j | 0 <= i < |signatures| && 0 <= j < |classes| :: FailedAttempts(h, signatures[i], classes[j], le) >= 2
  }

  /** A repair class of this plan that a matching run which helped had applied. */
  predicate PreferredClass(h: History, matching: seq<string>, classes: seq<string>) {
    exists j, i | 0 <= j < |classes| && 0 <= i < |h| ::
      h[i].runId in matching && HelpedStatus(h[i].finalStatus) && classes[j] in h[i].repairClasses
  }

  function SeenSignatures(h: History, signatures: seq<string>): seq<string> {
    if signatures == [] then []
    else (if Seen(h, signatures[0]) then [signatures[0]] else []) + SeenSignatures(h, signatures[1..])
  }

  function RetryPolicy(h: History, findings: seq<Finding>, tasks: seq<FixPlan.Task>, le: Compare): RetryDecision {
    var signatures := UniqueTrimmed(Signatures(findings), le);
    var classes := UniqueTrimmed(ClassNames(tasks), le);
    var matching := UniqueTrimmed(MatchingRuns(h, signatures), le);
    if matching == [] then NoHistory
    else if BlockedAttempt(h, signatures, classes, le) then BlockedRepeatFailure
    else if PreferredClass(h, matching, classes) then AllowPreferred
    else if |classes| > 1 || |UniqueTrimmed(SeenSignatures(h, signatures), le)| > 1 then ReviewRepeatFailure
    else AllowRepair
  }

  // ----- The confidence score -----

  const MAX_AUTOFIX_CONFIDENCE: real := 0.95

  predicate PreferredKind(k: Kind) { k == SnapshotDrift || k == StaleAssertion || k == OrderingDrift }

  predicate OnlyPreferredKinds(findings: seq<Finding>) {
    findings != [] && forall i | 0 <= i < |findings| :: PreferredKind(findings[i].facts.kind)
  }

  /** A matching run helped and had a repair class. */
  predicate PriorSuccess(h: History, matching: seq<string>) {
    exists i, j | 0 <= i < |h| && 0 <= j < |h[i].repairClasses| ::
      h[i].runId in matching && HelpedStatus(h[i].finalStatus) && Trim(h[i].repairClasses[j]) != ""
  }

  function AttemptsOn(h: History, signature: string, classes: seq<string>, le: Compare): nat {
    if classes == [] then 0
    else FailedAttempts(h, signature, classes[0], le) + AttemptsOn(h, signature, classes[1..], le)
  }

  /** The failed attempts of every signature with every repair class, added up. */
  function RepeatedFailures(h: History, signatures: seq<string>, classes: seq<string>, le: Compare): nat {
    if signatures == [] then 0
    else AttemptsOn(h, signatures[0], classes, le) + RepeatedFailures(h, signatures[1..], classes, le)
  }

  /** What the score is computed from. */
  datatype Evidence = Evidence(decision: RetryDecision, preferredKinds: bool, priorSuccess: bool, failures: nat,
                               planned: nat, excluded: nat)

  function EvidenceOf(h: History, findings: seq<Finding>, plan: FixPlan.Plan, le: Compare): Evidence {
    var signatures := UniqueTrimmed(Signatures(findings), le);
    Evidence(RetryPolicy(h, findings, plan.tasks, le), OnlyPreferredKinds(findings),
             PriorSuccess(h, UniqueTrimmed(MatchingRuns(h, signatures), le)),
             RepeatedFailures(h, signatures, UniqueTrimmed(ClassNames(plan.tasks), le), le), |plan.tasks|,
             |plan.excluded|)
  }

  function ExclusionRatio(planned: nat, excluded: nat): real {
    if planned + excluded == 0 then 1.0 else excluded as real / (planned + excluded) as real
  }

  function Penalty(failures: nat): real { if failures >= 3 then 0.3 else 0.1 * failures as real }

  function PolicyBonus(decision: RetryDecision): real {
    if decision == AllowPreferred then 0.1 else if decision == ReviewRepeatFailure then -0.15 else 0.0
  }

  function Score(e: Evidence): real {
    0.25 + (if e.preferredKinds then 0.35 else 0.1) + (if e.priorSuccess then 0.2 else 0.0) - Penalty(e.failures) +
    0.15 * (1.0 - ExclusionRatio(e.planned, e.excluded)) + PolicyBonus(e.decision)
  }

  /** Rounded, and then not below zero nor above the greatest score. */
  function Clamped(score: real, round: real -> real): real {
    var rounded := round(score);
    if rounded > MAX_AUTOFIX_CONFIDENCE then MAX_AUTOFIX_CONFIDENCE else if rounded < 0.0 then 0.0 else rounded
  }

  function Confidence(e: Evidence, round: real -> real): real {
    if e.decision == BlockedRepeatFailure then 0.0 else Clamped(Score(e), round)
  }

  /** The score, term by term. */
  method ComputeAutofixConfidence(e: Evidence, round: real -> real) returns (confidence: real)
    ensures confidence == Confidence(e, round)
  {
    if e.decision == BlockedRepeatFailure { return 0.0; }
    var score := 0.25;
    if e.preferredKinds { score := score + 0.35; } else { score := score + 0.1; }
    if e.priorSuccess { score := score + 0.2; }
    if e.failures > 0 {
      var penalty := e.failures as real * 0.1;
      score := score - if penalty < 0.3 then penalty else 0.3;
    }
    score := score + (1.0 - ExclusionRatio(e.planned, e.excluded)) * 0.15;
    if e.decision == AllowPreferred {
      score := score + 0.1;
    } else if e.decision == ReviewRepeatFailure {
      score := score - 0.15;
    }
    score := round(score);
    if score > MAX_AUTOFIX_CONFIDENCE { score := MAX_AUTOFIX_CONFIDENCE; }
    return if score < 0.0 then 0.0 else score;
  }

  // ----- One run -----

  /** What ends a run before anything is mutated: a final status, or None to go on. */
  function StopWithoutMutation(findings: seq<Finding>, plan: FixPlan.Plan,
                               decision: RetryDecision): Option<FinalStatus> {
    if findings == [] then Some(Blocked)
    else if plan.tasks == [] && plan.excluded != [] &&
           forall i | 0 <= i < |plan.excluded| :: plan.excluded[i].repairClass == ReviewRequired then
      Some(ReviewRequiredOnly)
    else if decision == BlockedRepeatFailure then Some(Blocked)
    else if decision == ReviewRepeatFailure then Some(ReviewRequiredOnly)
    else if plan.tasks == [] then Some(Blocked)
    else None
  }

  function ComputeExitCode(status: FinalStatus): nat {
    if status == Fixed || status == ReviewRequiredOnly then SUCCESS else FAILURE
  }

  /** `test-autofix-run-` and the run's number, padded to four digits. */
  function PadStart(s: string, width: nat): string
    decreases width - |s|
  {
    if |s| >= width then s else PadStart("0" + s, width)
  }

  function RunId(number: nat): string { "test-autofix-run-" + PadStart(Decimal(number), 4) }

  const NOT_APPLIED := ApplySummary(false, false)
  const NOT_VERIFIED := VerificationSummary(false, false, 0, 0, 0)

  function StatusAfterApply(applyOk: bool, verified: bool, excludedTotal: nat, applied: nat): FinalStatus {
    if !applyOk then Blocked
    else if verified then (if excludedTotal > 0 then PartiallyFixed else Fixed)
    else if applied > 0 then PartiallyFixed
    else NotFixed
  }

  /** The triage and the plan a run works from. */
  function FindingsFor(log: string, s: Setup): seq<Finding> { TriageOf(log, s.oracles, s.le).findings }
  function PlanFor(log: string, s: Setup): FixPlan.Plan { FixPlan.PlanOf(FindingsFor(log, s), s.digest, s.le) }
  function RerunFor(log: string, s: Setup): seq<string> { TriageOf(log, s.oracles, s.le).rerunCommands }
  function DecisionFor(h: History, log: string, s: Setup): RetryDecision {
    RetryPolicy(h, FindingsFor(log, s), PlanFor(log, s).tasks, s.le)
  }
  function StopFor(h: History, log: string, s: Setup): Option<FinalStatus> {
    StopWithoutMutation(FindingsFor(log, s), PlanFor(log, s), DecisionFor(h, log, s))
  }

  function ConfidenceFor(h: History, log: string, s: Setup): real {
    Confidence(EvidenceOf(h, FindingsFor(log, s), PlanFor(log, s), s.le), s.round)
  }

  predicate GoesToApply(h: History, i: Input, s: Setup) {
    StopFor(h, i.log, s).None? && i.mode == ApplyMode && ConfidenceFor(h, i.log, s) >= s.round(i.threshold)
  }

  /** The command throws on a threshold outside [0, 1], and where apply throws. */
  predicate Throws(h: History, i: Input, s: Setup) {
    !(0.0 <= i.threshold <= 1.0) || OutcomeFor(h, i, s).None?
  }

  function EntryFor(h: History, i: Input, s: Setup, r: Report): HistoryEntry {
    HistoryEntry(r.runId, i.mode, r.decision, UniqueTrimmed(Signatures(FindingsFor(i.log, s)), s.le),
                 UniqueTrimmed(ClassNames(PlanFor(i.log, s).tasks), s.le), r.finalStatus, r.apply.attempted,
                 r.threshold, r.confidence)
  }

  /** What the branches after planning look at. */
  datatype Case = Case(runId: string, decision: RetryDecision, stop: Option<FinalStatus>, confidence: real,
                       threshold: real,
                       excludedTotal: nat, rerun: seq<string>)

  function CaseFor(h: History, i: Input, s: Setup): Case {
    Case(RunId(|h| + 1), DecisionFor(h, i.log, s), StopFor(h, i.log, s), ConfidenceFor(h, i.log, s),
         s.round(i.threshold),
         |PlanFor(i.log, s).excluded|, RerunFor(i.log, s))
  }

  /** The report of a run, from what triage, planning, the policy and the score gave it; None where apply throws. */
  function Outcome(c: Case, i: Input, le: Compare): Option<Report> {
    var idle := Report(c.runId, c.decision, c.confidence, c.threshold, false, NOT_APPLIED, NOT_VERIFIED, [], [],
                       c.excludedTotal, Blocked);
    if c.stop.Some? then Some(idle.(finalStatus := c.stop.value))
    else if i.mode == DryRun then Some(idle.(wouldApply := c.confidence >= c.threshold))
    else if c.confidence < c.threshold then Some(idle.(finalStatus := BlockedLowConfidence))
    else if i.apply.None? then None
    else
      var a := i.apply.value;
      var executed := if a.ok then Executed(c.rerun, i.processes) else [];
      var summary := if a.ok then SummaryOf(c.rerun, executed) else NOT_VERIFIED;
      Some(idle.(wouldApply := true, apply := ApplySummary(true, a.ok), verification := summary, executed := executed,
                 appliedTaskIds := Sort(a.appliedTaskIds, le),
                 finalStatus := StatusAfterApply(a.ok, summary.ok, c.excludedTotal, |a.appliedTaskIds|)))
  }

  function OutcomeFor(h: History, i: Input, s: Setup): Option<Report> { Outcome(CaseFor(h, i, s), i, s.le) }

  /** The report of a run that does not throw. */
  function ReportFor(h: History, i: Input, s: Setup): Report
    requires !Throws(h, i, s)
  {
    OutcomeFor(h, i, s).value
  }

  /** The decision flow after planning, branch by branch. */
  method DecideAndApply(c: Case, i: Input, le: Compare) returns (r: Option<Report>)
    ensures r == Outcome(c, i, le)
  {
    var wouldApply := c.stop.None? && i.mode != DryRun && c.confidence >= c.threshold;
    var idle := Report(c.runId, c.decision, c.confidence, c.threshold, wouldApply, NOT_APPLIED, NOT_VERIFIED, [], [],
                       c.excludedTotal, Blocked);
    if c.stop.Some? { return Some(idle.(finalStatus := c.stop.value)); }
    if i.mode == DryRun { return Some(idle.(wouldApply := c.confidence >= c.threshold)); }
    if c.confidence < c.threshold { return Some(idle.(wouldApply := false, finalStatus := BlockedLowConfidence)); }
    if i.apply.None? { return None; }
    var applied := i.apply.value;
    var finalStatus, executed, summary := Blocked, [], NOT_VERIFIED;
    var appliedTaskIds := Sort(applied.appliedTaskIds, le);
    SortPermutes(applied.appliedTaskIds, le);
    if applied.ok {
      executed, summary := RunVerificationPlan(c.rerun, i.processes);
      if summary.ok {
        finalStatus := if c.excludedTotal > 0 then PartiallyFixed else Fixed;
      } else {
        finalStatus := if |appliedTaskIds| > 0 then PartiallyFixed else NotFixed;
      }
    }
    return Some(idle.(wouldApply := true, apply := ApplySummary(true, applied.ok), verification := summary,
                      executed := executed, appliedTaskIds := appliedTaskIds, finalStatus := finalStatus));
  }

  /** One command. Err where it throws: the history is then left alone; otherwise it gains exactly one entry. */
  method RunTestAutofix(h: History, i: Input, s: Setup) returns (r: Result<Report, ()>, after: History)
    ensures r.Err? <==> Throws(h, i, s)
    ensures r.Ok? ==> r.value == ReportFor(h, i, s)
    ensures after == After(h, i, s)
  {
    if !(0.0 <= i.threshold <= 1.0) { return Err(()), h; }
    var triage := BuildTestTriageArtifact(i.log, s.oracles, s.le);
    var fixPlan := FixPlan.BuildTestFixPlanArtifact(triage.findings, s.digest, s.le);
    assert triage.findings == FindingsFor(i.log, s) && fixPlan == PlanFor(i.log, s);
    var decision := RetryPolicy(h, triage.findings, fixPlan.tasks, s.le);
    assert decision == DecisionFor(h, i.log, s);
    var stop := StopWithoutMutation(triage.findings, fixPlan, decision);
    assert stop == StopFor(h, i.log, s);
    var evidence := EvidenceOf(h, triage.findings, fixPlan, s.le);
    var confidence := ComputeAutofixConfidence(evidence, s.round);
    assert confidence == ConfidenceFor(h, i.log, s);
    var flow := Case(RunId(|h| + 1), decision, stop, confidence, s.round(i.threshold), |fixPlan.excluded|,
                     triage.rerunCommands);
    assert flow == CaseFor(h, i, s);
    var report := DecideAndApply(flow, i, s.le);
    if report.None? { return Err(()), h; }
    return Ok(report.value), h + [EntryFor(h, i, s, report.value)];
  }

  function After(h: History, i: Input, s: Setup): History {
    if Throws(h, i, s) then h else h + [EntryFor(h, i, s, ReportFor(h, i, s))]
  }

  // ----- What one run guarantees -----

  lemma StopIsNeverFixed(findings: seq<Finding>, plan: FixPlan.Plan, decision: RetryDecision)
    ensures StopWithoutMutation(findings, plan, decision) != Some(Fixed)
    ensures StopWithoutMutation(findings, plan, decision) == None ==>
              findings != [] && plan.tasks != [] && decision != BlockedRepeatFailure && decision != ReviewRepeatFailure
  {
  }

  /** What the decision flow can end in. */
  lemma OutcomeFacts(c: Case, i: Input, le: Compare)
    ensures var r := Outcome(c, i, le);
            var goes := c.stop == None && i.mode == ApplyMode && c.confidence >= c.threshold;
            (r.None? <==> goes && i.apply.None?) &&
            (r.Some? ==>
               r.value.runId == c.runId && (r.value.apply.attempted <==> goes) &&
               r.value.confidence == c.confidence && r.value.threshold == c.threshold &&
               (i.mode == ApplyMode ==> (r.value.wouldApply <==> goes)) &&
               (c.stop == None && i.mode == DryRun ==> r.value.finalStatus == Blocked) &&
               (c.stop != Some(Fixed) ==>
                  (r.value.finalStatus == Fixed <==>
                     goes && i.apply.Some? && i.apply.value.ok &&
                     SummaryOf(c.rerun, Executed(c.rerun, i.processes)).ok &&
                     c.excludedTotal == 0)) &&
               (r.value.finalStatus == Fixed || r.value.finalStatus == ReviewRequiredOnly ==>
                  r.value.finalStatus == Fixed || c.stop == Some(ReviewRequiredOnly)))
  {
  }

  lemma FactsFor(h: History, i: Input, s: Setup)
    requires 0.0 <= i.threshold <= 1.0
    ensures Throws(h, i, s) <==> GoesToApply(h, i, s) && i.apply.None?
    ensures !Throws(h, i, s) ==>
              var r := ReportFor(h, i, s);
              r.runId == RunId(|h| + 1) && (r.apply.attempted <==> GoesToApply(h, i, s)) &&
              r.confidence == ConfidenceFor(h, i.log, s) && r.threshold == s.round(i.threshold) &&
              (i.mode == ApplyMode ==> (r.wouldApply <==> GoesToApply(h, i, s))) &&
              (StopFor(h, i.log, s) == None && i.mode == DryRun ==> r.finalStatus == Blocked) &&
              (r.finalStatus == ReviewRequiredOnly ==> StopFor(h, i.log, s) == Some(ReviewRequiredOnly))
  {
    OutcomeFacts(CaseFor(h, i, s), i, s.le);
  }

  /** A run ends fixed exactly when apply was attempted and ok, every rerun command of the triage passed, and every
      finding became a task. */
  lemma FixedExactly(h: History, i: Input, s: Setup)
    requires !Throws(h, i, s)
    ensures ReportFor(h, i, s).finalStatus == Fixed <==>
            GoesToApply(h, i, s) && i.apply.Some? && i.apply.value.ok &&
            (forall c | c in RerunFor(i.log, s) :: i.processes(c).status == Some(0)) &&
            |PlanFor(i.log, s).tasks| == |FindingsFor(i.log, s)|
  {
    FactsFor(h, i, s);
    OutcomeFacts(CaseFor(h, i, s), i, s.le);
    NothingExcluded(h, i.log, s);
    VerificationOkExactly(RerunFor(i.log, s), i.processes);
  }

  lemma NothingExcluded(h: History, log: string, s: Setup)
    ensures StopFor(h, log, s) != Some(Fixed)
    ensures |PlanFor(log, s).excluded| == 0 <==> |PlanFor(log, s).tasks| == |FindingsFor(log, s)|
    ensures StopFor(h, log, s) == None ==> RerunFor(log, s) != []
  {
    StopIsNeverFixed(FindingsFor(log, s), PlanFor(log, s), DecisionFor(h, log, s));
    FixPlan.SortedPlan(FindingsFor(log, s), s.digest, s.le);
    if FindingsFor(log, s) != [] { RerunNeverEmpty(log, s.oracles, s.le); }
  }

  // ----- Runs over a growing history -----

  function HistoryOf(inputs: seq<Input>, s: Setup): History {
    if inputs == [] then [] else After(HistoryOf(inputs[..|inputs| - 1], s), inputs[|inputs| - 1], s)
  }

  ghost predicate Numbered(h: History) {
    forall k | 0 <= k < |h| :: h[k].runId == RunId(k + 1)
  }

  lemma {:induction false} PadValue(t: string, width: nat)
    ensures DigitsValue(PadStart(t, width)) == DigitsValue(t)
    ensures t != "" ==> PadStart(t, width) != "" && PadStart(t, width)[|PadStart(t, width)| - 1] == t[|t| - 1]
    decreases width - |t|
  {
    if |t| < width {
      PadValue("0" + t, width);
      LeadingZero(t);
    }
  }

  /** Run ids are distinct, and trimming them changes nothing. */
  lemma RunIdsDistinct(a: nat, b: nat)
    ensures a != b ==> RunId(a) != RunId(b)
    ensures Trim(RunId(a)) == RunId(a) && RunId(a) != ""
  {
    DecimalValue(a);
    DecimalValue(b);
    PadValue(Decimal(a), 4);
    PadValue(Decimal(b), 4);
    assert RunId(a)[17..] == PadStart(Decimal(a), 4) && RunId(b)[17..] == PadStart(Decimal(b), 4);
    var id := RunId(a);
    assert id[|id| - 1] == PadStart(Decimal(a), 4)[|PadStart(Decimal(a), 4)| - 1];
    TrimSolid(id);
  }

  lemma {:induction false} NoLeadingZero(n: nat)
    ensures |Decimal(n)| > 1 ==> Decimal(n)[0] != '0'
  {
    if n >= 10 {
      NoLeadingZero(n / 10);
      if n / 10 < 10 { assert Decimal(n / 10)[0] != '0'; }
    }
  }

  lemma {:induction false} PadFormat(t: string, width: nat)
    ensures |PadStart(t, width)| == if |t| < width then width else |t|
    ensures |t| >= width ==> PadStart(t, width) == t
    ensures (forall i | 0 <= i < |t| :: '0' <= t[i] <= '9') ==>
              forall i | 0 <= i < |PadStart(t, width)| :: '0' <= PadStart(t, width)[i] <= '9'
    decreases width - |t|
  {
    if |t| < width { PadFormat("0" + t, width); }
  }

  /** A run id is the fixed prefix and the number in decimal, with zeros in front only up to four digits. */
  lemma RunIdFormat(n: nat)
    ensures |RunId(n)| >= 21 && RunId(n)[..17] == "test-autofix-run-"
    ensures var digits := RunId(n)[17..];
            (forall i | 0 <= i < |digits| :: '0' <= digits[i] <= '9') && DigitsValue(digits) == n &&
            (|digits| > 4 ==> digits[0] != '0')
  {
    assert RunId(n)[17..] == PadStart(Decimal(n), 4);
    PadFormat(Decimal(n), 4);
    PadValue(Decimal(n), 4);
    DecimalValue(n);
    NoLeadingZero(n);
  }

  lemma {:induction false} RunIdListed(h: History, keep: HistoryEntry -> bool, k: nat)
    requires k < |h| && keep(h[k])
    ensures h[k].runId in RunIds(h, keep)
  {
    if k < |h| - 1 { RunIdListed(h[..|h| - 1], keep, k); }
  }

  ghost predicate FailedRun(e: HistoryEntry) {
    e.finalStatus == NotFixed || e.finalStatus == Blocked || e.finalStatus == BlockedLowConfidence
  }

  /** The run met the signature with this repair class, and failed. */
  ghost predicate FailedEntry(e: HistoryEntry, signature: string, repairClass: string) {
    signature in e.signatures && repairClass in e.repairClasses && FailedRun(e)
  }

  /** Two different failed entries for a signature and a repair class count as two attempts. */
  lemma TwoFailuresCount(h: History, j: nat, k: nat, signature: string, repairClass: string, le: Compare)
    requires Numbered(h) && j < k < |h|
    requires FailedEntry(h[j], signature, repairClass) && FailedEntry(h[k], signature, repairClass)
    ensures FailedAttempts(h, signature, repairClass, le) >= 2
  {
    var ids := RunIds(h, FailedFor(signature, repairClass));
    RunIdListed(h, FailedFor(signature, repairClass), j);
    RunIdListed(h, FailedFor(signature, repairClass), k);
    RunIdsDistinct(j + 1, k + 1);
    RunIdsDistinct(k + 1, j + 1);
    var a, b := h[j].runId, h[k].runId;
    UniqueTrimmedSpec(ids, a, le);
    UniqueTrimmedSpec(ids, b, le);
    var m :| 0 <= m < |ids| && ids[m] == a;
    var n :| 0 <= n < |ids| && ids[n] == b;
    assert a in UniqueTrimmed(ids, le) && b in UniqueTrimmed(ids, le);
  }

  lemma {:induction false} MatchingListed(h: History, signatures: seq<string>, signature: string, k: nat)
    requires signature in signatures && k < |h| && signature in h[k].signatures
    ensures h[k].runId in MatchingRuns(h, signatures)
  {
    if signature == signatures[0] {
      RunIdListed(h, ListsSignature(signature), k);
    } else {
      MatchingListed(h, signatures[1..], signature, k);
    }
  }

  lemma {:induction false} ListedRunId(h: History, keep: HistoryEntry -> bool, id: string) returns (k: nat)
    requires id in RunIds(h, keep)
    ensures k < |h| && keep(h[k]) && h[k].runId == id
  {
    var n := |h| - 1;
    if keep(h[n]) && h[n].runId == id {
      k := n;
    } else {
      k := ListedRunId(h[..n], keep, id);
    }
  }

  ghost predicate TwoFailed(h: History, signature: string, repairClass: string) {
    exists j, k | 0 <= j < k < |h| ::
      FailedEntry(h[j], signature, repairClass) && FailedEntry(h[k], signature, repairClass)
  }

  /** Two counted attempts are two entries. */
  lemma CountedTwice(h: History, signature: string, repairClass: string, le: Compare)
    requires FailedAttempts(h, signature, repairClass, le) >= 2
    ensures TwoFailed(h, signature, repairClass)
  {
    var keep := FailedFor(signature, repairClass);
    var ids := RunIds(h, keep);
    var counted := UniqueTrimmed(ids, le);
    UniqueTrimmedSpec(ids, counted[0], le);
    UniqueTrimmedSpec(ids, counted[1], le);
    var m :| 0 <= m < |ids| && ids[m] != "" && Trim(ids[m]) == counted[0];
    var n :| 0 <= n < |ids| && ids[n] != "" && Trim(ids[n]) == counted[1];
    var j := ListedRunId(h, keep, ids[m]);
    var k := ListedRunId(h, keep, ids[n]);
    assert j != k;
    if j < k { assert keep(h[j]) && keep(h[k]); } else { assert keep(h[k]) && keep(h[j]); }
  }

  /** Two runs failed with one of these repair classes on one of these signatures. */
  ghost predicate KnownBad(h: History, signatures: seq<string>, classes: seq<string>) {
    exists a, b | 0 <= a < |signatures| && 0 <= b < |classes| :: TwoFailed(h, signatures[a], classes[b])
  }

  lemma BlockedAttemptExactly(h: History, signatures: seq<string>, classes: seq<string>, le: Compare)
    requires Numbered(h)
    ensures BlockedAttempt(h, signatures, classes, le) <==> KnownBad(h, signatures, classes)
  {
    forall a, b | 0 <= a < |signatures| && 0 <= b < |classes|
      ensures FailedAttempts(h, signatures[a], classes[b], le) >= 2 <==> TwoFailed(h, signatures[a], classes[b])
    {
      AttemptsExactly(h, signatures[a], classes[b], le);
    }
  }

  lemma AttemptsExactly(h: History, signature: string, repairClass: string, le: Compare)
    requires Numbered(h)
    ensures FailedAttempts(h, signature, repairClass, le) >= 2 <==> TwoFailed(h, signature, repairClass)
  {
    if FailedAttempts(h, signature, repairClass, le) >= 2 { CountedTwice(h, signature, repairClass, le); }
    if j, k :|
      0 <= j < k < |h| && FailedEntry(h[j], signature, repairClass) && FailedEntry(h[k], signature, repairClass)
    {
      TwoFailuresCount(h, j, k, signature, repairClass, le);
    }
  }

  lemma KnownBadMatches(h: History, signatures: seq<string>, classes: seq<string>, le: Compare)
    requires Numbered(h) && KnownBad(h, signatures, classes)
    ensures UniqueTrimmed(MatchingRuns(h, signatures), le) != []
  {
    var a, b :| 0 <= a < |signatures| && 0 <= b < |classes| && TwoFailed(h, signatures[a], classes[b]);
    var j, k :| 0 <= j < k < |h| && FailedEntry(h[j], signatures[a], classes[b]) &&
                FailedEntry(h[k], signatures[a], classes[b]);
    MatchingListed(h, signatures, signatures[a], j);
    RunIdsDistinct(j + 1, j + 1);
    UniqueTrimmedSpec(MatchingRuns(h, signatures), h[j].runId, le);
    var m :| 0 <= m < |MatchingRuns(h, signatures)| && MatchingRuns(h, signatures)[m] == h[j].runId;
  }

  /** On a history that the command wrote, the policy blocks exactly if two runs failed with a repair class of this plan
      on a signature of this log. */
  lemma PolicyBlocksExactly(h: History, findings: seq<Finding>, tasks: seq<FixPlan.Task>, le: Compare)
    requires Numbered(h)
    ensures RetryPolicy(h, findings, tasks, le) == BlockedRepeatFailure <==>
            KnownBad(h, UniqueTrimmed(Signatures(findings), le), UniqueTrimmed(ClassNames(tasks), le))
  {
    var signatures := UniqueTrimmed(Signatures(findings), le);
    var classes := UniqueTrimmed(ClassNames(tasks), le);
    BlockedAttemptExactly(h, signatures, classes, le);
    if KnownBad(h, signatures, classes) { KnownBadMatches(h, signatures, classes, le); }
  }

  /** What a run that does not throw appends. */
  lemma NextEntry(h: History, i: Input, s: Setup) returns (e: HistoryEntry)
    requires !Throws(h, i, s)
    ensures After(h, i, s) == h + [e]
    ensures e.runId == RunId(|h| + 1)
    ensures e.signatures == UniqueTrimmed(Signatures(FindingsFor(i.log, s)), s.le)
    ensures e.repairClasses == UniqueTrimmed(ClassNames(PlanFor(i.log, s).tasks), s.le)
    ensures e.applyAttempted ==> StopFor(h, i.log, s) == None
    ensures e.threshold == s.round(i.threshold) && e.confidence == ConfidenceFor(h, i.log, s)
    ensures e.applyAttempted ==> e.confidence >= e.threshold
    ensures StopFor(h, i.log, s) == None && i.mode == DryRun ==> FailedStatusOf(e.finalStatus)
  {
    e := EntryFor(h, i, s, ReportFor(h, i, s));
    FactsFor(h, i, s);
  }

  lemma NextIsNumbered(h: History, i: Input, s: Setup)
    requires Numbered(h)
    ensures Numbered(After(h, i, s))
  {
    if !Throws(h, i, s) {
      var e := NextEntry(h, i, s);
    }
  }

  lemma {:induction false} HistoryIsNumbered(inputs: seq<Input>, s: Setup)
    ensures Numbered(HistoryOf(inputs, s))
  {
    if inputs != [] {
      HistoryIsNumbered(inputs[..|inputs| - 1], s);
      NextIsNumbered(HistoryOf(inputs[..|inputs| - 1], s), inputs[|inputs| - 1], s);
    }
  }

  /** An entry that attempted apply for this signature and repair class. */
  ghost predicate Attempt(e: HistoryEntry, signature: string, repairClass: string) {
    e.applyAttempted && signature in e.signatures && repairClass in e.repairClasses
  }

  /** No attempt follows two failures of the same repair class on the same signature. */
  ghost predicate AttemptsAreLimited(h: History) {
    forall j, k, n, signature, repairClass | 0 <= j < k < n < |h| && Attempt(h[n], signature, repairClass) ::
      !(FailedEntry(h[j], signature, repairClass) && FailedEntry(h[k], signature, repairClass))
  }

  /** The log has this signature, and its plan this repair class. */
  ghost predicate ConcernsLog(log: string, signature: string, repairClass: string, s: Setup) {
    signature in UniqueTrimmed(Signatures(FindingsFor(log, s)), s.le) &&
    repairClass in UniqueTrimmed(ClassNames(PlanFor(log, s).tasks), s.le)
  }

  lemma BadPair(h: History, signatures: seq<string>, classes: seq<string>, signature: string, repairClass: string)
    requires TwoFailed(h, signature, repairClass) && signature in signatures && repairClass in classes
    ensures KnownBad(h, signatures, classes)
  {
    var a :| 0 <= a < |signatures| && signatures[a] == signature;
    var b :| 0 <= b < |classes| && classes[b] == repairClass;
    assert TwoFailed(h, signatures[a], classes[b]);
  }

  /** After two failures a run on the same signature and repair class is stopped. */
  lemma TwoFailuresStop(h: History, log: string, s: Setup, j: nat, k: nat, signature: string, repairClass: string)
    requires Numbered(h) && j < k < |h|
    requires FailedEntry(h[j], signature, repairClass) && FailedEntry(h[k], signature, repairClass)
    ensures ConcernsLog(log, signature, repairClass, s) ==> StopFor(h, log, s) != None
  {
    assert TwoFailed(h, signature, repairClass);
    if ConcernsLog(log, signature, repairClass, s) {
      BadPair(h, UniqueTrimmed(Signatures(FindingsFor(log, s)), s.le),
              UniqueTrimmed(ClassNames(PlanFor(log, s).tasks), s.le),
              signature, repairClass);
      PolicyBlocksExactly(h, FindingsFor(log, s), PlanFor(log, s).tasks, s.le);
      StopIsNeverFixed(FindingsFor(log, s), PlanFor(log, s), DecisionFor(h, log, s));
    }
  }

  lemma LimitedExtended(h: History, e: HistoryEntry)
    requires AttemptsAreLimited(h)
    requires forall j, k, signature, repairClass | 0 <= j < k < |h| && FailedEntry(h[j], signature, repairClass) &&
                                                   FailedEntry(h[k], signature, repairClass) ::
                                                     !Attempt(e, signature, repairClass)
    ensures AttemptsAreLimited(h + [e])
  {
  }

  lemma NextIsLimited(h: History, i: Input, s: Setup)
    requires Numbered(h) && AttemptsAreLimited(h)
    ensures AttemptsAreLimited(After(h, i, s))
  {
    if !Throws(h, i, s) {
      var e := NextEntry(h, i, s);
      forall j, k, signature, repairClass | 0 <= j < k < |h| && FailedEntry(h[j], signature, repairClass) &&
                                            FailedEntry(h[k], signature, repairClass)
        ensures !Attempt(e, signature, repairClass)
      {
        if signature in e.signatures && repairClass in e.repairClasses {
          TwoFailuresStop(h, i.log, s, j, k, signature, repairClass);
        }
      }
      LimitedExtended(h, e);
    }
  }

  /** Safety over every sequence of runs, whatever their logs, options and child processes: once two
      runs failed with a repair class on a failure signature, no later run applies that class to that signature. */
  lemma {:induction false} NoThirdAttempt(inputs: seq<Input>, s: Setup)
    ensures AttemptsAreLimited(HistoryOf(inputs, s))
  {
    if inputs != [] {
      NoThirdAttempt(inputs[..|inputs| - 1], s);
      HistoryIsNumbered(inputs[..|inputs| - 1], s);
      NextIsLimited(HistoryOf(inputs[..|inputs| - 1], s), inputs[|inputs| - 1], s);
    }
  }
}
