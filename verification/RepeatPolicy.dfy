/** What the repeat policy decides, in terms of what earlier runs did, and what that means for a run: when it goes on,
    when it exits with success, and when dry runs stop it. */
module RepeatPolicy {
  import opened Text
  import opened Sorting
  import opened FailureBlocks
  import opened Triage
  import opened Autofix
  import FixPlan

  // ----- The policy, exactly -----

  ghost predicate MatchesRun(e: HistoryEntry, signatures: seq<string>) {
    exists a | 0 <= a < |signatures| :: signatures[a] in e.signatures
  }

  /** Some run met one of these signatures. */
  ghost predicate Matched(h: History, signatures: seq<string>) {
    exists k | 0 <= k < |h| :: MatchesRun(h[k], signatures)
  }

  ghost predicate HelpedRun(e: HistoryEntry, signatures: seq<string>, classes: seq<string>) {
    MatchesRun(e, signatures) && (e.finalStatus == Fixed || e.finalStatus == PartiallyFixed) &&
    exists b | 0 <= b < |classes| :: classes[b] in e.repairClasses
  }

  /** A run that met one of these signatures helped, with one of these repair classes. */
  ghost predicate Helped(h: History, signatures: seq<string>, classes: seq<string>) {
    exists k | 0 <= k < |h| :: HelpedRun(h[k], signatures, classes)
  }

  ghost predicate TwoSeen(h: History, signatures: seq<string>) {
    exists a, b | 0 <= a < b < |signatures| :: Seen(h, signatures[a]) && Seen(h, signatures[b])
  }

  /** The plan has several repair classes, or several of the signatures were met before. */
  ghost predicate Mixed(h: History, signatures: seq<string>, classes: seq<string>) {
    |classes| > 1 || TwoSeen(h, signatures)
  }

  ghost function MeantDecision(h: History, signatures: seq<string>, classes: seq<string>): RetryDecision {
    if !Matched(h, signatures) then NoHistory
    else if KnownBad(h, signatures, classes) then BlockedRepeatFailure
    else if Helped(h, signatures, classes) then AllowPreferred
    else if Mixed(h, signatures, classes) then ReviewRepeatFailure
    else AllowRepair
  }

  lemma {:induction false} MatchingRunListed(h: History, signatures: seq<string>, id: string) returns (k: nat)
    requires id in MatchingRuns(h, signatures)
    ensures k < |h| && h[k].runId == id && MatchesRun(h[k], signatures)
  {
    if id in RunIds(h, ListsSignature(signatures[0])) {
      k := ListedRunId(h, ListsSignature(signatures[0]), id);
      assert signatures[0] in h[k].signatures;
    } else {
      k := MatchingRunListed(h, signatures[1..], id);
      var a :| 0 <= a < |signatures[1..]| && signatures[1..][a] in h[k].signatures;
      assert signatures[a + 1] in h[k].signatures;
    }
  }

  lemma MatchingExactly(h: History, signatures: seq<string>, k: nat, le: Compare)
    requires Numbered(h) && k < |h|
    ensures h[k].runId in UniqueTrimmed(MatchingRuns(h, signatures), le) <==> MatchesRun(h[k], signatures)
  {
    var runs := MatchingRuns(h, signatures);
    UniqueTrimmedSpec(runs, h[k].runId, le);
    RunIdsDistinct(k + 1, k + 1);
    if MatchesRun(h[k], signatures) {
      var a :| 0 <= a < |signatures| && signatures[a] in h[k].signatures;
      MatchingListed(h, signatures, signatures[a], k);
      var m :| 0 <= m < |runs| && runs[m] == h[k].runId;
    }
    if h[k].runId in UniqueTrimmed(runs, le) {
      var m :| 0 <= m < |runs| && runs[m] != "" && Trim(runs[m]) == h[k].runId;
      var j := MatchingRunListed(h, signatures, runs[m]);
      RunIdsDistinct(j + 1, k + 1);
    }
  }

  lemma SomeMatchingExactly(h: History, signatures: seq<string>, le: Compare)
    requires Numbered(h)
    ensures UniqueTrimmed(MatchingRuns(h, signatures), le) != [] <==> Matched(h, signatures)
  {
    var runs := MatchingRuns(h, signatures);
    var matching := UniqueTrimmed(runs, le);
    if k :| 0 <= k < |h| && MatchesRun(h[k], signatures) { MatchingExactly(h, signatures, k, le); }
    if matching != [] {
      UniqueTrimmedSpec(runs, matching[0], le);
      var m :| 0 <= m < |runs| && runs[m] != "" && Trim(runs[m]) == matching[0];
      var j := MatchingRunListed(h, signatures, runs[m]);
    }
  }

  lemma PreferredExactly(h: History, signatures: seq<string>, classes: seq<string>, le: Compare)
    requires Numbered(h)
    ensures PreferredClass(h, UniqueTrimmed(MatchingRuns(h, signatures), le), classes) <==>
            Helped(h, signatures, classes)
  {
    var matching := UniqueTrimmed(MatchingRuns(h, signatures), le);
    forall k | 0 <= k < |h| ensures h[k].runId in matching <==> MatchesRun(h[k], signatures) {
      MatchingExactly(h, signatures, k, le);
    }
    if PreferredClass(h, matching, classes) {
      var j, i :| 0 <= j < |classes| && 0 <= i < |h| && h[i].runId in matching && HelpedStatus(h[i].finalStatus) &&
                  classes[j] in h[i].repairClasses;
      assert HelpedRun(h[i], signatures, classes);
    }
    if k :| 0 <= k < |h| && HelpedRun(h[k], signatures, classes) {
      var b :| 0 <= b < |classes| && classes[b] in h[k].repairClasses;
    }
  }

  lemma {:induction false} SeenSpec(h: History, signatures: seq<string>, x: string)
    ensures x in SeenSignatures(h, signatures) <==> x in signatures && Seen(h, x)
  {
    if signatures != [] {
      SeenSpec(h, signatures[1..], x);
      assert signatures == [signatures[0]] + signatures[1..];
    }
  }

  /** Signatures as the policy takes them: trimmed, not empty, each once. */
  ghost predicate Clean(values: seq<string>) {
    NoDuplicates(values) && forall x | x in values :: Solid(x)
  }

  lemma UniqueTrimmedClean(values: seq<string>, le: Compare)
    ensures Clean(UniqueTrimmed(values, le))
  {
    UniqueTrimmedSpec(values, "", le);
    forall x | x in UniqueTrimmed(values, le) ensures Solid(x) {
      UniqueTrimmedSpec(values, x, le);
      var i :| 0 <= i < |values| && values[i] != "" && Trim(values[i]) == x;
      TrimTwice(values[i]);
    }
  }

  lemma TwoMembers(values: seq<string>, x: string, y: string)
    requires x in values && y in values && x != y
    ensures |values| > 1
  {
  }

  lemma SeenExactly(h: History, signatures: seq<string>, le: Compare)
    requires Clean(signatures)
    ensures |UniqueTrimmed(SeenSignatures(h, signatures), le)| > 1 <==> TwoSeen(h, signatures)
  {
    var seen := SeenSignatures(h, signatures);
    var unique := UniqueTrimmed(seen, le);
    forall x ensures x in seen <==> x in signatures && Seen(h, x) { SeenSpec(h, signatures, x); }
    forall x ensures x in unique <==> x in seen { TrimmedAlready(seen, x, le); }
    if |unique| > 1 {
      UniqueTrimmedClean(seen, le);
      assert unique[0] in unique && unique[1] in unique && unique[0] != unique[1];
      var a :| 0 <= a < |signatures| && signatures[a] == unique[0];
      var b :| 0 <= b < |signatures| && signatures[b] == unique[1];
      if a < b {
        assert Seen(h, signatures[a]) && Seen(h, signatures[b]);
      } else {
        assert Seen(h, signatures[b]) && Seen(h, signatures[a]);
      }
    }
    if a, b :| 0 <= a < b < |signatures| && Seen(h, signatures[a]) && Seen(h, signatures[b]) {
      TwoMembers(unique, signatures[a], signatures[b]);
    }
  }

  function SignaturesOf(findings: seq<Finding>, le: Compare): seq<string> { UniqueTrimmed(Signatures(findings), le) }

  function ClassesOf(tasks: seq<FixPlan.Task>, le: Compare): seq<string> { UniqueTrimmed(ClassNames(tasks), le) }

  /** On a history that the command wrote, the policy is decided by which runs met these signatures, failed or
      helped. */
  lemma PolicyExactly(h: History, findings: seq<Finding>, tasks: seq<FixPlan.Task>, le: Compare)
    requires Numbered(h)
    ensures RetryPolicy(h, findings, tasks, le) == MeantDecision(h, SignaturesOf(findings, le), ClassesOf(tasks, le))
  {
    var signatures, classes := SignaturesOf(findings, le), ClassesOf(tasks, le);
    UniqueTrimmedClean(Signatures(findings), le);
    SomeMatchingExactly(h, signatures, le);
    BlockedAttemptExactly(h, signatures, classes, le);
    PreferredExactly(h, signatures, classes, le);
    SeenExactly(h, signatures, le);
  }

  // ----- When a run goes on -----

  function LogSignatures(log: string, s: Setup): seq<string> { SignaturesOf(FindingsFor(log, s), s.le) }

  function LogClasses(log: string, s: Setup): seq<string> { ClassesOf(PlanFor(log, s).tasks, s.le) }

  lemma DecisionExactly(h: History, log: string, s: Setup)
    requires Numbered(h)
    ensures DecisionFor(h, log, s) == MeantDecision(h, LogSignatures(log, s), LogClasses(log, s))
  {
    PolicyExactly(h, FindingsFor(log, s), PlanFor(log, s).tasks, s.le);
  }

  lemma MeantStops(h: History, signatures: seq<string>, classes: seq<string>)
    ensures MeantDecision(h, signatures, classes) == BlockedRepeatFailure <==> KnownBad(h, signatures, classes)
    ensures MeantDecision(h, signatures, classes) == ReviewRepeatFailure <==> Unclear(h, signatures, classes)
  {
    if KnownBad(h, signatures, classes) { BadIsMatched(h, signatures, classes); }
  }

  /** Some run met one of these signatures, none of them helped with one of these classes, and the case is mixed. */
  ghost predicate Unclear(h: History, signatures: seq<string>, classes: seq<string>) {
    Matched(h, signatures) && !KnownBad(h, signatures, classes) && !Helped(h, signatures, classes) &&
    Mixed(h, signatures, classes)
  }

  ghost predicate LogKnownBad(h: History, log: string, s: Setup) {
    KnownBad(h, LogSignatures(log, s), LogClasses(log, s))
  }

  ghost predicate LogUnclear(h: History, log: string, s: Setup) {
    Unclear(h, LogSignatures(log, s), LogClasses(log, s))
  }

  /** There are findings, and every one of them is excluded for review. */
  ghost predicate OnlyForReview(log: string, s: Setup) {
    FindingsFor(log, s) != [] && PlanFor(log, s).tasks == [] &&
    forall x | x in PlanFor(log, s).excluded :: x.repairClass == ReviewRequired
  }

  lemma BadIsMatched(h: History, signatures: seq<string>, classes: seq<string>)
    requires KnownBad(h, signatures, classes)
    ensures Matched(h, signatures)
  {
    var a, b :| 0 <= a < |signatures| && 0 <= b < |classes| && TwoFailed(h, signatures[a], classes[b]);
    var j, k :| 0 <= j < k < |h| && FailedEntry(h[j], signatures[a], classes[b]) &&
                FailedEntry(h[k], signatures[a], classes[b]);
    assert signatures[a] in h[j].signatures;
    assert MatchesRun(h[j], signatures);
  }

  lemma NoFindingsNoMatch(findings: seq<Finding>, h: History, le: Compare)
    ensures findings == [] ==> !Matched(h, SignaturesOf(findings, le))
  {
    if findings == [] { assert Signatures(findings) == []; }
  }

  /** The two decisions that stop a run. */
  lemma StoppingDecisions(h: History, log: string, s: Setup)
    requires Numbered(h)
    ensures DecisionFor(h, log, s) == BlockedRepeatFailure <==> LogKnownBad(h, log, s)
    ensures DecisionFor(h, log, s) == ReviewRepeatFailure <==> LogUnclear(h, log, s)
    ensures LogUnclear(h, log, s) ==> FindingsFor(log, s) != []
  {
    DecisionExactly(h, log, s);
    MeantStops(h, LogSignatures(log, s), LogClasses(log, s));
    NoFindingsNoMatch(FindingsFor(log, s), h, s.le);
  }

  /** The stop, from the plan and the decision. */
  lemma StopCases(findings: seq<Finding>, plan: FixPlan.Plan, decision: RetryDecision)
    requires |plan.tasks| + |plan.excluded| == |findings|
    ensures StopWithoutMutation(findings, plan, decision) == None <==>
            plan.tasks != [] && decision != BlockedRepeatFailure && decision != ReviewRepeatFailure
    ensures StopWithoutMutation(findings, plan, decision) == Some(ReviewRequiredOnly) <==>
            findings != [] && ((plan.tasks == [] && forall x | x in plan.excluded :: x.repairClass == ReviewRequired) ||
                               decision == ReviewRepeatFailure)
    ensures plan.tasks != [] && decision == BlockedRepeatFailure ==>
              StopWithoutMutation(findings, plan, decision) == Some(Blocked)
  {
    var all := forall i | 0 <= i < |plan.excluded| :: plan.excluded[i].repairClass == ReviewRequired;
    assert all <==> forall x | x in plan.excluded :: x.repairClass == ReviewRequired by {
      forall i | 0 <= i < |plan.excluded| ensures plan.excluded[i] in plan.excluded { }
    }
  }

  /** A run goes on exactly if its plan has a task, no two runs failed as it would, and it is not a mixed case that met
      earlier runs without help. */
  lemma GoesOnExactly(h: History, log: string, s: Setup)
    requires Numbered(h)
    ensures StopFor(h, log, s) == None <==>
            PlanFor(log, s).tasks != [] && !LogKnownBad(h, log, s) && !LogUnclear(h, log, s)
  {
    StoppingDecisions(h, log, s);
    FixPlan.SortedPlan(FindingsFor(log, s), s.digest, s.le);
    StopCases(FindingsFor(log, s), PlanFor(log, s), DecisionFor(h, log, s));
  }

  /** A run stops for review exactly if all findings are for review or the history leaves a mixed case unclear. */
  lemma ReviewStopExactly(h: History, log: string, s: Setup)
    requires Numbered(h)
    ensures StopFor(h, log, s) == Some(ReviewRequiredOnly) <==> OnlyForReview(log, s) || LogUnclear(h, log, s)
  {
    StoppingDecisions(h, log, s);
    FixPlan.SortedPlan(FindingsFor(log, s), s.digest, s.le);
    StopCases(FindingsFor(log, s), PlanFor(log, s), DecisionFor(h, log, s));
  }

  /** Apply is attempted exactly if the run goes on, the mode is apply and confidence reaches the threshold; in apply
      mode the report announces it just then. */
  lemma AppliesExactly(h: History, i: Input, s: Setup)
    requires Numbered(h) && !Throws(h, i, s)
    ensures ReportFor(h, i, s).apply.attempted <==>
            PlanFor(i.log, s).tasks != [] && !LogKnownBad(h, i.log, s) && !LogUnclear(h, i.log, s) &&
            i.mode == ApplyMode && ConfidenceFor(h, i.log, s) >= s.round(i.threshold)
    ensures i.mode == ApplyMode ==> (ReportFor(h, i, s).wouldApply <==> ReportFor(h, i, s).apply.attempted)
  {
    FactsFor(h, i, s);
    GoesOnExactly(h, i.log, s);
  }

  /** The process exits with success exactly for a fixed run, for one whose findings are all for review, and for one
      that an unclear history stopped, executable tasks or not. */
  lemma ExitsWithSuccessExactly(h: History, i: Input, s: Setup)
    requires Numbered(h) && !Throws(h, i, s)
    ensures ComputeExitCode(ReportFor(h, i, s).finalStatus) == 0 <==>
            ReportFor(h, i, s).finalStatus == Fixed || OnlyForReview(i.log, s) || LogUnclear(h, i.log, s)
  {
    FactsFor(h, i, s);
    ReviewStopExactly(h, i.log, s);
  }

  // ----- What dry runs cost -----

  lemma NameIsSolid(k: FixPlan.TaskKind)
    ensures Solid(FixPlan.TaskKindName(k))
  {
    TrimSolid(FixPlan.TaskKindName(k));
  }

  lemma ClassesOfTasks(tasks: seq<FixPlan.Task>, le: Compare)
    requires tasks != []
    ensures ClassesOf(tasks, le) != []
  {
    var name := FixPlan.TaskKindName(tasks[0].taskKind);
    TrimSolid(name);
    assert ClassNames(tasks)[0] == name;
    UniqueTrimmedSpec(ClassNames(tasks), name, le);
  }

  ghost predicate HasSignature(log: string, s: Setup) {
    exists f | f in FindingsFor(log, s) :: Trim(f.signature) != ""
  }

  lemma SignaturesOfFindings(findings: seq<Finding>, le: Compare)
    requires exists f | f in findings :: Trim(f.signature) != ""
    ensures SignaturesOf(findings, le) != []
  {
    var f :| f in findings && Trim(f.signature) != "";
    var n :| 0 <= n < |findings| && findings[n] == f;
    assert Signatures(findings)[n] == f.signature;
    TrimEmpty(f.signature);
    UniqueTrimmedSpec(Signatures(findings), Trim(f.signature), le);
  }

  /** Dry runs on one log, with thresholds that are not refused. */
  ghost predicate DryRunsOn(runs: seq<Input>, log: string) {
    forall i | 0 <= i < |runs| :: runs[i].mode == DryRun && runs[i].log == log && 0.0 <= runs[i].threshold <= 1.0
  }

  /** One signature and one repair class. */
  ghost predicate Single(log: string, s: Setup) {
    |LogSignatures(log, s)| == 1 && |LogClasses(log, s)| == 1
  }

  /** What n dry runs on a log leave: every entry has its signatures and classes, the first is blocked, and the others
      are blocked too on a single log and left to review on any other. */
  ghost predicate DryHistory(h: History, signatures: seq<string>, classes: seq<string>) {
    Numbered(h) &&
    forall k | 0 <= k < |h| ::
      h[k].signatures == signatures && h[k].repairClasses == classes &&
      h[k].finalStatus == if k == 0 || (|signatures| == 1 && |classes| == 1) then Blocked else ReviewRequiredOnly
  }

  lemma DryMatched(h: History, signatures: seq<string>, classes: seq<string>)
    requires DryHistory(h, signatures, classes) && signatures != []
    ensures Matched(h, signatures) <==> h != []
    ensures !Helped(h, signatures, classes)
    ensures h != [] && |signatures| > 1 ==> TwoSeen(h, signatures)
  {
    if h != [] {
      assert signatures[0] in h[0].signatures;
      assert MatchesRun(h[0], signatures);
      if |signatures| > 1 {
        assert signatures[1] in h[0].signatures;
        assert Seen(h, signatures[0]) && Seen(h, signatures[1]);
      }
    }
  }

  lemma DryKnownBad(h: History, signatures: seq<string>, classes: seq<string>)
    requires DryHistory(h, signatures, classes) && signatures != [] && classes != []
    ensures KnownBad(h, signatures, classes) <==> |h| >= 2 && |signatures| == 1 && |classes| == 1
  {
    if |h| >= 2 && |signatures| == 1 && |classes| == 1 {
      assert FailedEntry(h[0], signatures[0], classes[0]) && FailedEntry(h[1], signatures[0], classes[0]);
      assert TwoFailed(h, signatures[0], classes[0]);
    }
    if a, b :| 0 <= a < |signatures| && 0 <= b < |classes| && TwoFailed(h, signatures[a], classes[b]) {
      var j, k :| 0 <= j < k < |h| && FailedEntry(h[j], signatures[a], classes[b]) &&
                  FailedEntry(h[k], signatures[a], classes[b]);
      assert FailedStatusOf(h[k].finalStatus);
    }
  }

  lemma DryDecision(h: History, signatures: seq<string>, classes: seq<string>)
    requires DryHistory(h, signatures, classes) && signatures != [] && classes != []
    ensures MeantDecision(h, signatures, classes) ==
            if h == [] then NoHistory
            else if |signatures| > 1 || |classes| > 1 then ReviewRepeatFailure
            else if |h| >= 2 then BlockedRepeatFailure
            else AllowRepair
  {
    DryMatched(h, signatures, classes);
    DryKnownBad(h, signatures, classes);
    if a, b :| 0 <= a < b < |signatures| && Seen(h, signatures[a]) && Seen(h, signatures[b]) {
      assert |signatures| > 1;
    }
  }

  /** What stops the next run after n dry runs: nothing before the first; then the policy. */
  ghost function StopAfterDryRuns(n: nat, single: bool): Option<FinalStatus> {
    if n == 0 || (n == 1 && single) then None else if single then Some(Blocked) else Some(ReviewRequiredOnly)
  }

  lemma StopOfDryHistory(h: History, signatures: seq<string>, classes: seq<string>, findings: seq<Finding>,
                         plan: FixPlan.Plan,
                         decision: RetryDecision)
    requires DryHistory(h, signatures, classes) && signatures != [] && classes != [] && plan.tasks != []
    requires |plan.tasks| + |plan.excluded| == |findings| && decision == MeantDecision(h, signatures, classes)
    ensures StopWithoutMutation(findings, plan, decision) == StopAfterDryRuns(|h|, |signatures| == 1 && |classes| == 1)
  {
    DryDecision(h, signatures, classes);
    StopCases(findings, plan, decision);
  }

  /** The log has a signature to remember it by, and its plan has a task. */
  ghost predicate Repairable(log: string, s: Setup) { HasSignature(log, s) && PlanFor(log, s).tasks != [] }

  lemma DryStop(h: History, log: string, s: Setup)
    ensures Repairable(log, s) && LeftByDryRuns(h, |h|, log, s) ==>
              StopFor(h, log, s) == StopAfterDryRuns(|h|, Single(log, s))
  {
    if Repairable(log, s) && LeftByDryRuns(h, |h|, log, s) {
      SignaturesOfFindings(FindingsFor(log, s), s.le);
      ClassesOfTasks(PlanFor(log, s).tasks, s.le);
      DecisionExactly(h, log, s);
      FixPlan.SortedPlan(FindingsFor(log, s), s.digest, s.le);
      StopOfDryHistory(h, LogSignatures(log, s), LogClasses(log, s), FindingsFor(log, s), PlanFor(log, s),
                       DecisionFor(h, log, s));
    }
  }

  /** The entry of a dry run. */
  lemma DryEntry(h: History, i: Input, s: Setup) returns (e: HistoryEntry)
    requires i.mode == DryRun && 0.0 <= i.threshold <= 1.0
    ensures After(h, i, s) == h + [e] && e.runId == RunId(|h| + 1)
    ensures e.signatures == LogSignatures(i.log, s) && e.repairClasses == LogClasses(i.log, s)
    ensures e.finalStatus == if StopFor(h, i.log, s) == None then Blocked else StopFor(h, i.log, s).value
  {
    FactsFor(h, i, s);
    e := EntryFor(h, i, s, ReportFor(h, i, s));
  }

  lemma DryHistoryGrows(h: History, e: HistoryEntry, signatures: seq<string>, classes: seq<string>, single: bool)
    requires DryHistory(h, signatures, classes) && (single <==> |signatures| == 1 && |classes| == 1)
    requires e.runId == RunId(|h| + 1) && e.signatures == signatures && e.repairClasses == classes
    requires var stop := StopAfterDryRuns(|h|, single); e.finalStatus == if stop == None then Blocked else stop.value
    ensures DryHistory(h + [e], signatures, classes)
  {
  }

  ghost predicate LeftByDryRuns(h: History, n: nat, log: string, s: Setup) {
    |h| == n && DryHistory(h, LogSignatures(log, s), LogClasses(log, s))
  }

  lemma NextDryRun(h: History, i: Input, n: nat, log: string, s: Setup)
    requires i.mode == DryRun && i.log == log && 0.0 <= i.threshold <= 1.0
    ensures Repairable(log, s) && LeftByDryRuns(h, n, log, s) ==> LeftByDryRuns(After(h, i, s), n + 1, log, s)
  {
    if Repairable(log, s) && LeftByDryRuns(h, n, log, s) {
      DryStop(h, log, s);
      var e := DryEntry(h, i, s);
      DryHistoryGrows(h, e, LogSignatures(log, s), LogClasses(log, s), Single(log, s));
    }
  }

  ghost predicate LeftBy(h: History, n: int, signatures: seq<string>, classes: seq<string>) {
    |h| == n && DryHistory(h, signatures, classes)
  }

  /** The history after a run of inputs, for any step. */
  ghost function Stepped(step: (History, Input) -> History, runs: seq<Input>): History {
    if runs == [] then [] else step(Stepped(step, runs[..|runs| - 1]), runs[|runs| - 1])
  }

  ghost function Stepper(s: Setup): (History, Input) -> History { (h, i) => After(h, i, s) }

  lemma {:induction false} HistoryIsStepped(runs: seq<Input>, s: Setup)
    ensures HistoryOf(runs, s) == Stepped(Stepper(s), runs)
  {
    if runs != [] { HistoryIsStepped(runs[..|runs| - 1], s); }
  }

  /** What a step keeps of the histories that dry runs leave. */
  ghost predicate StepLeaves(step: (History, Input) -> History, i: Input, signatures: seq<string>,
                             classes: seq<string>) {
    forall h, n :: LeftBy(h, n, signatures, classes) ==> LeftBy(step(h, i), n + 1, signatures, classes)
  }

  lemma {:induction false} SteppedLeft(step: (History, Input) -> History, runs: seq<Input>, signatures: seq<string>,
                                       classes: seq<string>)
    requires forall k | 0 <= k < |runs| :: StepLeaves(step, runs[k], signatures, classes)
    ensures LeftBy(Stepped(step, runs), |runs|, signatures, classes)
  {
    if runs != [] {
      var init := runs[..|runs| - 1];
      assert forall k | 0 <= k < |init| :: init[k] == runs[k];
      SteppedLeft(step, init, signatures, classes);
      assert StepLeaves(step, runs[|runs| - 1], signatures, classes);
    }
  }

  lemma DryRunLeaves(i: Input, log: string, s: Setup)
    requires i.mode == DryRun && i.log == log && 0.0 <= i.threshold <= 1.0
    ensures Repairable(log, s) ==> StepLeaves(Stepper(s), i, LogSignatures(log, s), LogClasses(log, s))
  {
    if Repairable(log, s) {
      forall h, n | LeftBy(h, n, LogSignatures(log, s), LogClasses(log, s))
        ensures LeftBy(Stepper(s)(h, i), n + 1, LogSignatures(log, s), LogClasses(log, s))
      {
        NextDryRun(h, i, n, log, s);
      }
    }
  }

  lemma HistoryOfDryRuns(runs: seq<Input>, log: string, s: Setup)
    requires DryRunsOn(runs, log)
    ensures Repairable(log, s) ==> LeftByDryRuns(HistoryOf(runs, s), |runs|, log, s)
  {
    if Repairable(log, s) {
      forall k | 0 <= k < |runs| ensures StepLeaves(Stepper(s), runs[k], LogSignatures(log, s), LogClasses(log, s)) {
        DryRunLeaves(runs[k], log, s);
      }
      SteppedLeft(Stepper(s), runs, LogSignatures(log, s), LogClasses(log, s));
      HistoryIsStepped(runs, s);
    }
  }

  /** Dry runs mutate nothing and yet spend the repeat budget. On a log that nothing stops at first, after any number
      of dry runs from an empty history, a run gets as far as the confidence gate exactly if there was none, or one and
      the log has one signature and one repair class. What stops it otherwise is the block for repeated failure on such
      a log and review on any other. */
  lemma DryRunsExactly(runs: seq<Input>, log: string, s: Setup)
    requires DryRunsOn(runs, log)
    ensures HasSignature(log, s) && StopFor([], log, s) == None ==>
              StopFor(HistoryOf(runs, s), log, s) == StopAfterDryRuns(|runs|, Single(log, s)) &&
              (StopFor(HistoryOf(runs, s), log, s) == None <==> |runs| == 0 || (|runs| == 1 && Single(log, s)))
  {
    GoesOnExactly([], log, s);
    HistoryOfDryRuns(runs, log, s);
    DryStop(HistoryOf(runs, s), log, s);
  }

  /** A dry run that neither throws nor is stopped. */
  ghost predicate FreeDryRun(h: History, i: Input, s: Setup) {
    i.mode == DryRun && !Throws(h, i, s) && StopFor(h, i.log, s) == None
  }

  /** The entry of a run on this log that failed. */
  ghost predicate FailedOn(e: HistoryEntry, log: string, s: Setup) {
    e.signatures == LogSignatures(log, s) && e.repairClasses == LogClasses(log, s) && FailedStatusOf(e.finalStatus)
  }

  lemma TwoEntriesStop(h: History, a: HistoryEntry, b: HistoryEntry, log: string, s: Setup)
    requires Numbered(h + [a] + [b])
    ensures Repairable(log, s) && FailedOn(a, log, s) && FailedOn(b, log, s) ==> StopFor(h + [a] + [b], log, s) != None
  {
    if Repairable(log, s) && FailedOn(a, log, s) && FailedOn(b, log, s) {
      ClassesOfTasks(PlanFor(log, s).tasks, s.le);
      SignaturesOfFindings(FindingsFor(log, s), s.le);
      FailedTwiceIsBad(h, a, b, LogSignatures(log, s), LogClasses(log, s));
      GoesOnExactly(h + [a] + [b], log, s);
    }
  }

  lemma FailedTwiceIsBad(h: History, a: HistoryEntry, b: HistoryEntry, signatures: seq<string>, classes: seq<string>)
    requires signatures != [] && classes != []
    requires a.signatures == signatures && a.repairClasses == classes && FailedStatusOf(a.finalStatus)
    requires b.signatures == signatures && b.repairClasses == classes && FailedStatusOf(b.finalStatus)
    ensures KnownBad(h + [a] + [b], signatures, classes)
  {
    var after := h + [a] + [b];
    assert after[|h|] == a && after[|h| + 1] == b;
    assert FailedEntry(after[|h|], signatures[0], classes[0]) && FailedEntry(after[|h| + 1], signatures[0], classes[0]);
    assert TwoFailed(after, signatures[0], classes[0]);
  }

  /** From any history that the command wrote: after two dry runs on a log that nothing stopped, a third run on it is
      stopped in either mode. */
  lemma DryRunsSpendTheBudget(h: History, first: Input, second: Input, third: Input, s: Setup)
    requires Numbered(h) && first.log == second.log == third.log
    ensures FreeDryRun(h, first, s) && FreeDryRun(After(h, first, s), second, s) && HasSignature(first.log, s) ==>
            StopFor(After(After(h, first, s), second, s), third.log, s) != None
  {
    if FreeDryRun(h, first, s) && FreeDryRun(After(h, first, s), second, s) && HasSignature(first.log, s) {
      var a := NextEntry(h, first, s);
      NextIsNumbered(h, first, s);
      var b := NextEntry(After(h, first, s), second, s);
      NextIsNumbered(After(h, first, s), second, s);
      GoesOnExactly(h, first.log, s);
      TwoEntriesStop(h, a, b, third.log, s);
      assert h + [a] + [b] == After(After(h, first, s), second, s);
    }
  }
}
