/** What a run of the repair command reports and records: its final status case by case, and every other field. */
module RunReports {
  import opened Text
  import opened Sorting
  import opened FailureBlocks
  import opened Triage
  import opened Autofix
  import opened RepeatPolicy
  import FixPlan

  /** Every rerun command of the triage exits with status zero. */
  ghost predicate RerunPasses(i: Input, s: Setup) {
    forall c | c in RerunFor(i.log, s) :: i.processes(c).status == Some(0)
  }

  /** The run attempts apply, and apply reports no failure. */
  ghost predicate AppliedOk(h: History, i: Input, s: Setup) {
    GoesToApply(h, i, s) && i.apply.Some? && i.apply.value.ok
  }

  /** The statuses of the flow after planning, from what its gates and its verification say. */
  lemma OutcomeStatuses(c: Case, i: Input, le: Compare)
    requires c.stop == None || c.stop == Some(Blocked) || c.stop == Some(ReviewRequiredOnly)
    requires Outcome(c, i, le).Some?
    ensures var status, goes := Outcome(c, i, le).value.finalStatus,
                                c.stop == None && i.mode == ApplyMode && c.confidence >= c.threshold;
            var ok, passes := goes && i.apply.value.ok, SummaryOf(c.rerun, Executed(c.rerun, i.processes)).ok;
            (status == Fixed <==> ok && passes && c.excludedTotal == 0) &&
            (status == PartiallyFixed <==>
             ok && if passes then c.excludedTotal > 0 else i.apply.value.appliedTaskIds != []) &&
            (status == NotFixed <==> ok && !passes && i.apply.value.appliedTaskIds == []) &&
            (status == BlockedLowConfidence <==> c.stop == None && i.mode == ApplyMode && c.confidence < c.threshold) &&
            (status == ReviewRequiredOnly <==> c.stop == Some(ReviewRequiredOnly)) &&
            (status == Blocked <==>
               c.stop == Some(Blocked) || (c.stop == None && i.mode == DryRun) || (goes && !i.apply.value.ok))
  {
  }

  lemma StopsAre(h: History, log: string, s: Setup)
    ensures StopFor(h, log, s) == None || StopFor(h, log, s) == Some(Blocked) ||
            StopFor(h, log, s) == Some(ReviewRequiredOnly)
  {
  }

  lemma RerunPassesExactly(h: History, i: Input, s: Setup)
    requires StopFor(h, i.log, s) == None
    ensures SummaryOf(RerunFor(i.log, s), Executed(RerunFor(i.log, s), i.processes)).ok <==> RerunPasses(i, s)
  {
    NothingExcluded(h, i.log, s);
    VerificationOkExactly(RerunFor(i.log, s), i.processes);
  }

  /** The final status of a run that does not throw, all six cases. */
  lemma FinalStatusExactly(h: History, i: Input, s: Setup)
    requires !Throws(h, i, s)
    ensures var status := ReportFor(h, i, s).finalStatus;
            (status == Fixed <==> AppliedOk(h, i, s) && RerunPasses(i, s) && PlanFor(i.log, s).excluded == []) &&
            (status == PartiallyFixed <==>
               AppliedOk(h, i, s) &&
               if RerunPasses(i, s) then PlanFor(i.log, s).excluded != [] else i.apply.value.appliedTaskIds != []) &&
            (status == NotFixed <==>
               AppliedOk(h, i, s) && !RerunPasses(i, s) && i.apply.value.appliedTaskIds == []) &&
            (status == BlockedLowConfidence <==>
               StopFor(h, i.log, s) == None && i.mode == ApplyMode &&
               ConfidenceFor(h, i.log, s) < s.round(i.threshold)) &&
            (status == ReviewRequiredOnly <==> StopFor(h, i.log, s) == Some(ReviewRequiredOnly)) &&
            (status == Blocked <==>
               StopFor(h, i.log, s) == Some(Blocked) || (StopFor(h, i.log, s) == None && i.mode == DryRun) ||
               (GoesToApply(h, i, s) && !AppliedOk(h, i, s)))
  {
    FactsFor(h, i, s);
    StopsAre(h, i.log, s);
    OutcomeStatuses(CaseFor(h, i, s), i, s.le);
    if StopFor(h, i.log, s) == None { RerunPassesExactly(h, i, s); }
  }

  /** What blocks a run before anything is mutated: no finding; a repair that failed twice; or no task and nothing that
      sends the run to review. */
  lemma BlockedStopExactly(h: History, log: string, s: Setup)
    requires Numbered(h)
    ensures StopFor(h, log, s) == Some(Blocked) <==>
            FindingsFor(log, s) == [] ||
            (!OnlyForReview(log, s) &&
             (LogKnownBad(h, log, s) || (PlanFor(log, s).tasks == [] && !LogUnclear(h, log, s))))
  {
    StopsAre(h, log, s);
    GoesOnExactly(h, log, s);
    ReviewStopExactly(h, log, s);
    StoppingDecisions(h, log, s);
    if LogKnownBad(h, log, s) { assert !LogUnclear(h, log, s); }
  }

  // ----- The other fields of a report -----

  /** The exit code of a command: the one it gave; 1 if it gave none, and 2 if it could not even be started. */
  lemma ExitCodeExactly(command: string, processes: string -> Completed)
    ensures var r, c := ResultOf(command, processes), processes(command);
            r.command == command && (r.ok <==> r.exitCode == 0) &&
            (c.status.Some? ==> r.exitCode == c.status.value) &&
            (c.status == None ==> r.exitCode == if c.spawnError then 2 else 1)
  {
  }

  /** What was verified, and how it ended. */
  lemma OutcomeVerified(c: Case, i: Input, le: Compare)
    requires Outcome(c, i, le).Some?
    ensures var r := Outcome(c, i, le).value;
            var ok := r.apply.ok;
            r.decision == c.decision && r.excludedTotal == c.excludedTotal &&
            (r.wouldApply <==> c.stop == None && c.confidence >= c.threshold) &&
            (ok <==> r.apply.attempted && i.apply.Some? && i.apply.value.ok) &&
            (r.apply.attempted ==> i.apply.Some? && r.appliedTaskIds == Sort(i.apply.value.appliedTaskIds, le)) &&
            (!r.apply.attempted ==> r.appliedTaskIds == []) &&
            (ok ==> r.executed == Executed(c.rerun, i.processes) && r.verification == SummaryOf(c.rerun, r.executed)) &&
            (!ok ==> r.executed == [] && r.verification == VerificationSummary(false, false, 0, 0, 0))
  {
  }

  /** The commands that ran, in plan order up to the first that failed, each with its exit code. */
  ghost predicate RanInOrder(executed: seq<CommandResult>, commands: seq<string>, processes: string -> Completed) {
    |executed| <= |commands| &&
    (forall k | 0 <= k < |executed| :: executed[k] == ResultOf(commands[k], processes)) &&
    (forall k | 0 <= k < |executed| - 1 :: executed[k].exitCode == 0) &&
    (|executed| < |commands| ==> executed != [] && executed[|executed| - 1].exitCode != 0)
  }

  /** The numbers of a verification: what was planned, what passed, and one failure unless all passed. */
  ghost predicate Verified(v: VerificationSummary, executed: seq<CommandResult>, commands: seq<string>, passes: bool) {
    v.attempted && (v.ok <==> passes) && v.total == |commands| && v.passed + v.failed == |executed| &&
    v.failed == if passes then 0 else 1
  }

  lemma SummaryIsVerified(i: Input, s: Setup)
    requires RerunFor(i.log, s) != []
    ensures var executed := Executed(RerunFor(i.log, s), i.processes);
            RanInOrder(executed, RerunFor(i.log, s), i.processes) &&
            Verified(SummaryOf(RerunFor(i.log, s), executed), executed, RerunFor(i.log, s), RerunPasses(i, s))
  {
    var commands := RerunFor(i.log, s);
    ExecutedIsPrefix(commands, i.processes);
    VerificationCounts(commands, i.processes);
    VerificationOkExactly(commands, i.processes);
    var executed := Executed(commands, i.processes);
    forall k | 0 <= k < |executed| - 1 ensures executed[k].exitCode == 0 { assert executed[k].ok; }
  }

  /** The report of a run that does not throw: what was decided, whether apply would run and ran, which tasks it
      applied, and which commands were run with which result. */
  lemma ReportExactly(h: History, i: Input, s: Setup)
    requires !Throws(h, i, s) && TotalPreorder(s.le)
    ensures var r := ReportFor(h, i, s);
            r.decision == DecisionFor(h, i.log, s) && r.excludedTotal == |PlanFor(i.log, s).excluded| &&
            (r.wouldApply <==> StopFor(h, i.log, s) == None && ConfidenceFor(h, i.log, s) >= s.round(i.threshold)) &&
            (r.apply.attempted <==> r.wouldApply && i.mode == ApplyMode) && (r.apply.ok <==> AppliedOk(h, i, s)) &&
            Sorted(r.appliedTaskIds, s.le) &&
            multiset(r.appliedTaskIds) ==
              (if r.apply.attempted then multiset(i.apply.GetOr(ApplyReport(false, [])).appliedTaskIds)
               else multiset{}) &&
            if r.apply.ok then
              RanInOrder(r.executed, RerunFor(i.log, s), i.processes) &&
              Verified(r.verification, r.executed, RerunFor(i.log, s), RerunPasses(i, s))
            else r.executed == [] && r.verification == VerificationSummary(false, false, 0, 0, 0)
  {
    FactsFor(h, i, s);
    OutcomeVerified(CaseFor(h, i, s), i, s.le);
    if GoesToApply(h, i, s) {
      SortSorts(i.apply.value.appliedTaskIds, s.le);
      SortPermutes(i.apply.value.appliedTaskIds, s.le);
      NothingExcluded(h, i.log, s);
      SummaryIsVerified(i, s);
    }
  }

  // ----- What the history records -----

  ghost predicate HasTrimmed(findings: seq<Finding>, x: string) {
    exists f | f in findings :: Trim(f.signature) == x
  }

  ghost predicate HasTask(tasks: seq<FixPlan.Task>, x: string) {
    exists t | t in tasks :: FixPlan.TaskKindName(t.taskKind) == x
  }

  lemma SignaturesRecorded(findings: seq<Finding>, x: string, le: Compare)
    ensures x in SignaturesOf(findings, le) <==> x != "" && HasTrimmed(findings, x)
  {
    var all := Signatures(findings);
    UniqueTrimmedSpec(all, x, le);
    if k :| 0 <= k < |all| && all[k] != "" && Trim(all[k]) == x { assert findings[k] in findings; }
    if f :| f in findings && x != "" && Trim(f.signature) == x {
      var k :| 0 <= k < |findings| && findings[k] == f;
      assert all[k] != "" by { assert Trim("") == ""; }
    }
  }

  lemma ClassesRecorded(tasks: seq<FixPlan.Task>, x: string, le: Compare)
    ensures x in ClassesOf(tasks, le) <==> HasTask(tasks, x)
  {
    var all := ClassNames(tasks);
    forall v | v in all ensures Solid(v) {
      var k :| 0 <= k < |all| && all[k] == v;
      NameIsSolid(tasks[k].taskKind);
    }
    TrimmedAlready(all, x, le);
    if x in all {
      var k :| 0 <= k < |all| && all[k] == x;
      assert tasks[k] in tasks;
    }
    if t :| t in tasks && FixPlan.TaskKindName(t.taskKind) == x {
      var k :| 0 <= k < |tasks| && tasks[k] == t;
      assert all[k] == x;
    }
  }

  /** A run that does not throw adds one entry: its number, options, decision and score as reported, the signatures of
      the findings and the repair classes of the plan, each once, and how it ended. */
  lemma RunIsRecorded(h: History, i: Input, s: Setup)
    requires !Throws(h, i, s)
    ensures var r := ReportFor(h, i, s);
            |After(h, i, s)| == |h| + 1 && After(h, i, s)[..|h|] == h && After(h, i, s)[|h|] ==
              HistoryEntry(RunId(|h| + 1), i.mode, r.decision, LogSignatures(i.log, s), LogClasses(i.log, s),
                           r.finalStatus,
                           r.apply.attempted, s.round(i.threshold), ConfidenceFor(h, i.log, s))
    ensures NoDuplicates(LogSignatures(i.log, s)) && NoDuplicates(LogClasses(i.log, s))
    ensures forall x :: x in LogSignatures(i.log, s) <==> x != "" && HasTrimmed(FindingsFor(i.log, s), x)
    ensures forall x :: x in LogClasses(i.log, s) <==> HasTask(PlanFor(i.log, s).tasks, x)
  {
    FactsFor(h, i, s);
    UniqueTrimmedClean(Signatures(FindingsFor(i.log, s)), s.le);
    UniqueTrimmedClean(ClassNames(PlanFor(i.log, s).tasks), s.le);
    forall x ensures x in LogSignatures(i.log, s) <==> x != "" && HasTrimmed(FindingsFor(i.log, s), x) {
      SignaturesRecorded(FindingsFor(i.log, s), x, s.le);
    }
    forall x ensures x in LogClasses(i.log, s) <==> HasTask(PlanFor(i.log, s).tasks, x) {
      ClassesRecorded(PlanFor(i.log, s).tasks, x, s.le);
    }
  }
}
