/** What dry runs cost on two concrete logs: one failing snapshot, and a failing snapshot beside an ordering drift. */
module DryRunExamples {
  import opened Text
  import opened Sorting
  import opened FailureBlocks
  import opened Triage
  import opened Autofix
  import opened RepeatPolicy
  import opened ConfidenceGate
  import FixPlan

  // ----- Logs with findings that can be fixed -----

  /** A log gives the findings of its blocks. */
  lemma FindingOfBlock(log: string, b: Block, s: Setup)
    requires b in ParsedBlocks(log, s.oracles.patterns)
    ensures FindingOf(b, s.oracles, s.le) in FindingsFor(log, s)
  {
    var blocks := ParsedBlocks(log, s.oracles.patterns);
    var i :| 0 <= i < |blocks| && blocks[i] == b;
    FindingsComeFromBlocks(log, s.oracles, s.le);
    ListedFinding(blocks, i, s.oracles, s.le);
    SameMembers(FindingsFor(log, s), FindingsOf(blocks, s.oracles, s.le));
  }

  lemma ListedFinding(blocks: seq<Block>, i: nat, o: Oracles, le: Compare)
    requires i < |blocks|
    ensures FindingOf(blocks[i], o, le) in FindingsOf(blocks, o, le)
  {
    assert FindingsOf(blocks, o, le)[i] == FindingOf(blocks[i], o, le);
  }

  function ClassName(f: Finding): string
    requires FixPlan.Mapping(f.facts.kind).Some?
  {
    FixPlan.TaskKindName(FixPlan.Mapping(f.facts.kind).value)
  }

  /** A finding that is not excluded puts its repair class into the plan. */
  lemma ClassListed(findings: seq<Finding>, f: Finding, digest: string -> string, le: Compare)
    requires f in findings && FixPlan.ExclusionReason(f) == None
    ensures FixPlan.PlanOf(findings, digest, le).tasks != []
    ensures ClassName(f) in ClassesOf(FixPlan.PlanOf(findings, digest, le).tasks, le)
  {
    var i :| 0 <= i < |findings| && findings[i] == f;
    var t := FixPlan.ToTask(f, i, FixPlan.Mapping(f.facts.kind).value, digest, le);
    FixPlan.EveryTask(findings, i, digest, le);
    FixPlan.SortedPlan(findings, digest, le);
    ClassOfTask(FixPlan.PlanOf(findings, digest, le).tasks, t, le);
  }

  lemma ClassOfTask(tasks: seq<FixPlan.Task>, t: FixPlan.Task, le: Compare)
    requires t in tasks
    ensures FixPlan.TaskKindName(t.taskKind) in ClassesOf(tasks, le)
  {
    var name := FixPlan.TaskKindName(t.taskKind);
    var n :| 0 <= n < |tasks| && tasks[n] == t;
    assert ClassNames(tasks)[n] == name;
    NameIsSolid(t.taskKind);
    UniqueTrimmedSpec(ClassNames(tasks), name, le);
  }

  /** Every class of a plan for one finding is that finding's. */
  lemma ClassesOfOne(findings: seq<Finding>, f: Finding, v: string, digest: string -> string, le: Compare)
    requires findings == [f] && FixPlan.ExclusionReason(f) == None
    ensures v in ClassNames(FixPlan.PlanOf(findings, digest, le).tasks) ==> v == ClassName(f)
  {
    var tasks := FixPlan.PlanOf(findings, digest, le).tasks;
    FixPlan.PlanAccounts(findings, digest, le);
    if n :| 0 <= n < |tasks| && ClassNames(tasks)[n] == v {
      assert tasks[n] in tasks && FixPlan.TaskFor(tasks[n], findings, tasks[n].findingIndex, digest, le);
    }
  }

  /** One finding that can be fixed gives one signature and one repair class. */
  lemma OneFinding(findings: seq<Finding>, f: Finding, digest: string -> string, le: Compare)
    requires findings == [f] && FixPlan.ExclusionReason(f) == None && Solid(f.signature)
    ensures |SignaturesOf(findings, le)| == 1 && |ClassesOf(FixPlan.PlanOf(findings, digest, le).tasks, le)| == 1
  {
    OneValue(Signatures(findings), f.signature, le);
    var names := ClassNames(FixPlan.PlanOf(findings, digest, le).tasks);
    ClassListed(findings, f, digest, le);
    NameIsSolid(FixPlan.Mapping(f.facts.kind).value);
    forall v | v in names ensures v == ClassName(f) { ClassesOfOne(findings, f, v, digest, le); }
    OneValue(names, ClassName(f), le);
  }

  /** A block whose finding can be fixed: it has a file, a low-risk kind and a signature. */
  ghost predicate Fixable(b: Block, s: Setup) {
    Given(b.file) && LowRisk(s.oracles.classify(b.lines)) && Solid(FindingOf(b, s.oracles, s.le).signature)
  }

  ghost predicate Preferred(b: Block, s: Setup) { Fixable(b, s) && PreferredKind(s.oracles.classify(b.lines)) }

  function BlockClass(b: Block, s: Setup): string
    requires LowRisk(s.oracles.classify(b.lines))
  {
    FixPlan.TaskKindName(FixPlan.Mapping(s.oracles.classify(b.lines)).value)
  }

  lemma FindingParts(b: Block, o: Oracles, le: Compare)
    ensures var f := FindingOf(b, o, le);
            f.signature == o.signature(f.facts, b.lines) && f.facts.kind == o.classify(b.lines) &&
            f.facts.testFile == b.file &&
            (f.facts.repairClass == AutofixPlanOnly <==> LowRisk(f.facts.kind))
  {
  }

  lemma LowRiskIsPlanned(f: Finding)
    requires Given(f.facts.testFile) && LowRisk(f.facts.kind) && f.facts.repairClass == AutofixPlanOnly
    ensures FixPlan.ExclusionReason(f) == None
  {
  }

  lemma FixableFinding(b: Block, s: Setup)
    requires Fixable(b, s)
    ensures var f := FindingOf(b, s.oracles, s.le);
            FixPlan.ExclusionReason(f) == None && ClassName(f) == BlockClass(b, s)
  {
    FindingParts(b, s.oracles, s.le);
    LowRiskIsPlanned(FindingOf(b, s.oracles, s.le));
  }

  /** From an empty history a run on a log with such a block goes on. */
  lemma BlockGoesOn(log: string, b: Block, s: Setup)
    requires b in ParsedBlocks(log, s.oracles.patterns) && Fixable(b, s)
    ensures HasSignature(log, s) && StopFor([], log, s) == None && BlockClass(b, s) in LogClasses(log, s)
  {
    var f := FindingOf(b, s.oracles, s.le);
    FixableFinding(b, s);
    FindingOfBlock(log, b, s);
    ClassListed(FindingsFor(log, s), f, s.digest, s.le);
    GoesOnExactly([], log, s);
  }

  lemma BlockIsRepairable(log: string, b: Block, s: Setup)
    requires b in ParsedBlocks(log, s.oracles.patterns) && Fixable(b, s)
    ensures Repairable(log, s)
  {
    BlockGoesOn(log, b, s);
    GoesOnExactly([], log, s);
  }

  /** A log of one such block: one dry run lets the next run through, two block it. */
  lemma OneBlockLog(log: string, b: Block, runs: seq<Input>, s: Setup)
    requires DryRunsOn(runs, log) && ParsedBlocks(log, s.oracles.patterns) == [b] && Fixable(b, s)
    ensures StopFor(HistoryOf(runs, s), log, s) == if |runs| <= 1 then None else Some(Blocked)
  {
    OneBlockIsSingle(log, b, s);
    BlockGoesOn(log, b, s);
    DryRunsExactly(runs, log, s);
  }

  lemma OneBlockIsSingle(log: string, b: Block, s: Setup)
    requires ParsedBlocks(log, s.oracles.patterns) == [b] && Fixable(b, s)
    ensures Single(log, s)
  {
    FindingsComeFromBlocks(log, s.oracles, s.le);
    FindingOfBlock(log, b, s);
    FixableFinding(b, s);
    assert FindingsFor(log, s) == [FindingOf(b, s.oracles, s.le)];
    OneFinding(FindingsFor(log, s), FindingOf(b, s.oracles, s.le), s.digest, s.le);
  }

  /** A log of two such blocks with different repair classes: a single dry run stops every later run on it for
      review. */
  lemma TwoBlockLog(log: string, b: Block, c: Block, runs: seq<Input>, s: Setup)
    requires DryRunsOn(runs, log) && ParsedBlocks(log, s.oracles.patterns) == [b, c]
    requires Fixable(b, s) && Fixable(c, s) && BlockClass(b, s) != BlockClass(c, s)
    ensures StopFor(HistoryOf(runs, s), log, s) == if |runs| == 0 then None else Some(ReviewRequiredOnly)
  {
    assert [b, c][0] == b;
    TwoBlocksAreNotSingle(log, b, c, s);
    BlockGoesOn(log, b, s);
    DryRunsExactly(runs, log, s);
  }

  lemma TwoBlocksAreNotSingle(log: string, b: Block, c: Block, s: Setup)
    requires ParsedBlocks(log, s.oracles.patterns) == [b, c]
    requires Fixable(b, s) && Fixable(c, s) && BlockClass(b, s) != BlockClass(c, s)
    ensures !Single(log, s)
  {
    assert [b, c][0] == b && [b, c][1] == c;
    BlockGoesOn(log, b, s);
    BlockGoesOn(log, c, s);
    TwoMembers(LogClasses(log, s), BlockClass(b, s), BlockClass(c, s));
  }

  // ----- Two logs -----

  const SNAPSHOT_LINE: string := "FAIL a.test.ts" + " > Snapshot mismatch"
  const ORDERING_LINE: string := "FAIL b.test.ts" + " > Expected ['x','y'] Received ['y','x']"

  /** What the program's patterns capture from the two lines: each names its suite, and only the first has a word that
      signals a failure. */
  function SuitePatterns(): Patterns {
    Patterns((line: string) => None, (line: string) => None, (line: string) => None,
             (line: string) => if line == SNAPSHOT_LINE then Some("a.test.ts")
                               else if line == ORDERING_LINE then Some("b.test.ts") else None,
             (line: string) => None, (line: string) => line == SNAPSHOT_LINE)
  }

  /** What the program answers for the two blocks: the kind, the summary and the signature, which is the prefix of a
      SHA-256 digest. */
  function ExampleOracles(): Oracles {
    Oracles(SuitePatterns(), (lines: seq<string>) => if lines == [ORDERING_LINE] then OrderingDrift else SnapshotDrift,
            (lines: seq<string>) => if lines == [] then "Unclassified test failure block" else lines[0],
            (facts: Facts, lines: seq<string>) =>
              if lines == [ORDERING_LINE] then "failsig-8ca8b44cf5f30cc9" else "failsig-64fb5b9bd45b377c")
  }

  function SuiteBlock(line: string, name: string): Block {
    NO_BLOCK.(suite := Some(name), file := Some(name), lines := [line])
  }

  function SnapshotBlock(): Block { SuiteBlock(SNAPSHOT_LINE, "a.test.ts") }

  function OrderingBlock(): Block { SuiteBlock(ORDERING_LINE, "b.test.ts") }

  lemma LinesDiffer()
    ensures SNAPSHOT_LINE != ORDERING_LINE && [SNAPSHOT_LINE] != [ORDERING_LINE]
    ensures !IsBlank(SNAPSHOT_LINE) && !IsBlank(ORDERING_LINE)
  {
    assert SNAPSHOT_LINE[5] == 'a' && ORDERING_LINE[5] == 'b';
    assert [SNAPSHOT_LINE][0] != [ORDERING_LINE][0];
  }

  lemma ExampleIsSound()
    ensures Sound(ExampleOracles())
  {
    LinesDiffer();
    forall line ensures Opens(SuitePatterns(), line) ==> !IsBlank(line) { }
  }

  ghost predicate OneLine(line: string) {
    forall i | 0 <= i < |line| :: line[i] != '\n' && line[i] != '\r'
  }

  lemma SplitCharacter(c: char, rest: string)
    requires c != '\n' && c != '\r'
    ensures var r := SplitLines(rest); SplitLines([c] + rest) == [[c] + r[0]] + r[1..]
  {
    assert ([c] + rest)[1..] == rest;
  }

  /** A line without line ends splits off before anything that starts a new line. */
  lemma {:induction false} SplitLine(line: string, rest: string)
    requires OneLine(line) && SplitLines(rest)[0] == ""
    ensures SplitLines(line + rest) == [line] + SplitLines(rest)[1..]
  {
    if line == "" {
      assert line + rest == rest;
    } else {
      SplitLine(line[1..], rest);
      SplitCharacter(line[0], line[1..] + rest);
      assert line + rest == [line[0]] + (line[1..] + rest) && line == [line[0]] + line[1..];
    }
  }

  lemma SplitNewline(rest: string)
    ensures SplitLines("\n" + rest) == [""] + SplitLines(rest)
  {
    assert ("\n" + rest)[1..] == rest;
  }

  lemma LinesAreOneLine()
    ensures OneLine(SNAPSHOT_LINE) && OneLine(ORDERING_LINE)
  {
    var snapshot, ordering := " > Snapshot mismatch", " > Expected ['x','y'] Received ['y','x']";
    assert OneLine("FAIL a.test.ts") && OneLine("FAIL b.test.ts") && OneLine(snapshot) && OneLine(ordering);
  }

  lemma SplitOne(line: string)
    requires OneLine(line)
    ensures SplitLines(line) == [line]
  {
    SplitLine(line, "");
    assert line + "" == line;
  }

  lemma SplitTwo(first: string, second: string)
    requires OneLine(first) && OneLine(second)
    ensures SplitLines(first + "\n" + second) == [first, second]
  {
    SplitOne(second);
    SplitNewline(second);
    SplitLine(first, "\n" + second);
    assert first + "\n" + second == first + ("\n" + second);
  }

  /** The machine after a first line with the snapshot failure. */
  lemma FirstFold(lines: seq<string>)
    requires lines != [] && lines[0] == SNAPSHOT_LINE
    ensures Fold(lines[..1], SuitePatterns()) == Machine(SnapshotBlock(), [])
  {
    NextFold(lines, SuitePatterns(), 0);
    assert lines[..0] == [];
  }

  lemma OneBlock()
    ensures ParsedBlocks(SNAPSHOT_LINE, SuitePatterns()) == [SnapshotBlock()]
  {
    LinesAreOneLine();
    SplitOne(SNAPSHOT_LINE);
    var lines := [SNAPSHOT_LINE];
    FirstFold(lines);
    assert lines[..1] == lines;
  }

  lemma TwoBlocks()
    ensures ParsedBlocks(SNAPSHOT_LINE + "\n" + ORDERING_LINE, SuitePatterns()) == [SnapshotBlock(), OrderingBlock()]
  {
    LinesAreOneLine();
    LinesDiffer();
    SplitTwo(SNAPSHOT_LINE, ORDERING_LINE);
    var lines := [SNAPSHOT_LINE, ORDERING_LINE];
    FirstFold(lines);
    NextFold(lines, SuitePatterns(), 1);
    assert lines[..2] == lines;
  }

  lemma SignaturesAreSolid()
    ensures Solid("failsig-8ca8b44cf5f30cc9") && Solid("failsig-64fb5b9bd45b377c")
  {
    TrimSolid("failsig-8ca8b44cf5f30cc9");
    TrimSolid("failsig-64fb5b9bd45b377c");
  }

  lemma SnapshotIsFixable(s: Setup)
    requires s.oracles == ExampleOracles()
    ensures Preferred(SnapshotBlock(), s) && s.oracles.classify(SnapshotBlock().lines) == SnapshotDrift
  {
    LinesDiffer();
    SignaturesAreSolid();
    FindingParts(SnapshotBlock(), s.oracles, s.le);
  }

  lemma OrderingIsFixable(s: Setup)
    requires s.oracles == ExampleOracles()
    ensures Preferred(OrderingBlock(), s) && s.oracles.classify(OrderingBlock().lines) == OrderingDrift
  {
    SignaturesAreSolid();
    FindingParts(OrderingBlock(), s.oracles, s.le);
  }

  lemma ClassesDiffer(s: Setup)
    requires s.oracles == ExampleOracles()
    ensures BlockClass(SnapshotBlock(), s) != BlockClass(OrderingBlock(), s)
  {
    LinesDiffer();
    NamesDiffer();
  }

  lemma NamesDiffer()
    ensures FixPlan.TaskKindName(FixPlan.SnapshotRefresh) !=
            FixPlan.TaskKindName(FixPlan.DeterministicOrderingStabilization)
  {
    assert FixPlan.TaskKindName(FixPlan.SnapshotRefresh)[0] == 's';
    assert FixPlan.TaskKindName(FixPlan.DeterministicOrderingStabilization)[0] == 'd';
  }

  // ----- What they show -----

  lemma {:induction false} NothingIsExcluded(findings: seq<Finding>)
    requires forall f | f in findings :: FixPlan.ExclusionReason(f) == None
    ensures FixPlan.ExclusionsOf(findings) == []
  {
    if findings != [] {
      assert findings[|findings| - 1] in findings;
      NothingIsExcluded(findings[..|findings| - 1]);
    }
  }

  lemma EverythingIsPlanned(findings: seq<Finding>, digest: string -> string, le: Compare)
    requires findings != [] && forall f | f in findings :: FixPlan.ExclusionReason(f) == None
    ensures var plan := FixPlan.PlanOf(findings, digest, le); plan.excluded == [] && plan.tasks != []
  {
    NothingIsExcluded(findings);
    FixPlan.SortedPlan(findings, digest, le);
    assert Sort<FixPlan.Exclusion>([], FixPlan.ExclusionOrder(le)) == [];
  }

  lemma FullPlainScore(n: nat, findings: seq<Finding>, plan: FixPlan.Plan, round: real -> real)
    requires RoundsToHundredths(round) && OnlyPreferredKinds(findings) && plan.tasks != [] && plan.excluded == []
    ensures DryRunScore(n, findings, plan, round) == if n == 0 then 0.75 else 0.65
  {
    assert ExclusionRatio(|plan.tasks|, 0) == 0.0;
    assert round(Hundredths(75)) == 0.75 && round(Hundredths(65)) == 0.65;
  }

  ghost predicate Plannable(f: Finding) { FixPlan.ExclusionReason(f) == None && PreferredKind(f.facts.kind) }

  lemma FindingsArePlannable(log: string, blocks: seq<Block>, s: Setup)
    requires ParsedBlocks(log, s.oracles.patterns) == blocks != [] && forall b | b in blocks :: Preferred(b, s)
    ensures FindingsFor(log, s) != [] && forall f | f in FindingsFor(log, s) :: Plannable(f)
  {
    FindingsComeFromBlocks(log, s.oracles, s.le);
    forall f | f in FindingsFor(log, s) ensures Plannable(f) {
      var k :| 0 <= k < |blocks| && f == FindingOf(blocks[k], s.oracles, s.le);
      assert Preferred(blocks[k], s);
      FixableFinding(blocks[k], s);
    }
  }

  lemma PlannableScore(n: nat, findings: seq<Finding>, digest: string -> string, le: Compare, round: real -> real)
    requires RoundsToHundredths(round) && findings != [] && forall f | f in findings :: Plannable(f)
    ensures DryRunScore(n, findings, FixPlan.PlanOf(findings, digest, le), round) == if n == 0 then 0.75 else 0.65
  {
    AllPreferred(findings);
    EverythingIsPlanned(findings, digest, le);
    FullPlainScore(n, findings, FixPlan.PlanOf(findings, digest, le), round);
  }

  /** Findings of preferred kinds that can all be fixed score 0.75, and 0.65 with one counted attempt. */
  lemma FullScore(log: string, blocks: seq<Block>, n: nat, s: Setup)
    requires RoundsToHundredths(s.round) && ParsedBlocks(log, s.oracles.patterns) == blocks != []
    requires forall b | b in blocks :: Preferred(b, s)
    ensures ScoreAfterDryRuns(n, log, s) == if n == 0 then 0.75 else 0.65
  {
    FindingsArePlannable(log, blocks, s);
    PlannableScore(n, FindingsFor(log, s), s.digest, s.le, s.round);
  }

  lemma AllPreferred(findings: seq<Finding>)
    requires findings != [] && forall f | f in findings :: PreferredKind(f.facts.kind)
    ensures OnlyPreferredKinds(findings)
  {
    forall k | 0 <= k < |findings| ensures PreferredKind(findings[k].facts.kind) { assert findings[k] in findings; }
  }

  lemma OneBlockScore(log: string, b: Block, n: nat, s: Setup)
    requires RoundsToHundredths(s.round) && ParsedBlocks(log, s.oracles.patterns) == [b] && Preferred(b, s)
    ensures ScoreAfterDryRuns(n, log, s) == if n == 0 then 0.75 else 0.65
  {
    FullScore(log, [b], n, s);
  }

  lemma TwoBlockScore(log: string, b: Block, c: Block, n: nat, s: Setup)
    requires RoundsToHundredths(s.round) && ParsedBlocks(log, s.oracles.patterns) == [b, c]
    requires Preferred(b, s) && Preferred(c, s)
    ensures ScoreAfterDryRuns(n, log, s) == if n == 0 then 0.75 else 0.65
  {
    FullScore(log, [b, c], n, s);
  }

  /** With the score of the log in hand. */
  lemma RepairsAtScore(runs: seq<Input>, i: Input, s: Setup, score: real, limit: nat)
    requires DryRunsOn(runs, i.log) && Repairable(i.log, s)
    requires limit == (if Single(i.log, s) then 1 else 0) && score == ScoreAfterDryRuns(|runs|, i.log, s)
    ensures AttemptsExactlyIf(runs, i, s, |runs| <= limit && score >= s.round(i.threshold))
  {
    RepairAfterDryRunsExactly(runs, i, s);
  }

  /** A log of one such block: two dry runs and more leave nothing, one takes a tenth off the score. */
  lemma OneBlockRepairs(log: string, b: Block, runs: seq<Input>, i: Input, s: Setup)
    requires RoundsToHundredths(s.round) && DryRunsOn(runs, log) && i.log == log
    requires ParsedBlocks(log, s.oracles.patterns) == [b] && Preferred(b, s)
    ensures AttemptsExactlyIf(runs, i, s, |runs| <= 1 && (if |runs| == 0 then 0.75 else 0.65) >= s.round(i.threshold))
  {
    OneBlockIsSingle(log, b, s);
    BlockIsRepairable(log, b, s);
    OneBlockScore(log, b, |runs|, s);
    RepairsAtScore(runs, i, s, if |runs| == 0 then 0.75 else 0.65, 1);
  }

  /** A log of two such blocks with different repair classes: one dry run leaves nothing. */
  lemma TwoBlockRepairs(log: string, b: Block, c: Block, runs: seq<Input>, i: Input, s: Setup)
    requires RoundsToHundredths(s.round) && DryRunsOn(runs, log) && i.log == log
    requires ParsedBlocks(log, s.oracles.patterns) == [b, c] && Preferred(b, s) && Preferred(c, s)
    requires BlockClass(b, s) != BlockClass(c, s)
    ensures AttemptsExactlyIf(runs, i, s, |runs| == 0 && 0.75 >= s.round(i.threshold))
  {
    assert [b, c][0] == b;
    TwoBlocksAreNotSingle(log, b, c, s);
    BlockIsRepairable(log, b, s);
    TwoBlockScore(log, b, c, |runs|, s);
    RepairsAtScore(runs, i, s, if |runs| == 0 then 0.75 else 0.65, 0);
  }

  /** One failing snapshot, whatever the comparison of strings does: apply is attempted up to a threshold of 0.75 at
      first, up to 0.65 after one dry run, and not at all after more. At the default threshold one dry run costs it. */
  lemma OneClassExample(runs: seq<Input>, i: Input, s: Setup)
    requires s.oracles == ExampleOracles() && RoundsToHundredths(s.round)
    requires DryRunsOn(runs, SNAPSHOT_LINE) && i.log == SNAPSHOT_LINE
    ensures Sound(s.oracles)
    ensures StopFor(HistoryOf(runs, s), i.log, s) == if |runs| <= 1 then None else Some(Blocked)
    ensures AttemptsExactlyIf(runs, i, s, |runs| <= 1 && (if |runs| == 0 then 0.75 else 0.65) >= s.round(i.threshold))
    ensures i.threshold == DEFAULT_CONFIDENCE_THRESHOLD ==> AttemptsExactlyIf(runs, i, s, |runs| == 0)
  {
    ExampleIsSound();
    OneBlock();
    SnapshotIsFixable(s);
    OneBlockLog(i.log, SnapshotBlock(), runs, s);
    OneBlockRepairs(i.log, SnapshotBlock(), runs, i, s);
    assert s.round(Hundredths(70)) == DEFAULT_CONFIDENCE_THRESHOLD;
  }

  /** Two failures of different repair classes: apply is attempted up to 0.75 at first, and never after a dry run. */
  lemma TwoClassExample(runs: seq<Input>, i: Input, s: Setup)
    requires s.oracles == ExampleOracles() && RoundsToHundredths(s.round)
    requires DryRunsOn(runs, SNAPSHOT_LINE + "\n" + ORDERING_LINE) && i.log == SNAPSHOT_LINE + "\n" + ORDERING_LINE
    ensures Sound(s.oracles)
    ensures StopFor(HistoryOf(runs, s), i.log, s) == if |runs| == 0 then None else Some(ReviewRequiredOnly)
    ensures AttemptsExactlyIf(runs, i, s, |runs| == 0 && 0.75 >= s.round(i.threshold))
  {
    ExampleIsSound();
    TwoBlocks();
    SnapshotIsFixable(s);
    OrderingIsFixable(s);
    ClassesDiffer(s);
    TwoBlockLog(i.log, SnapshotBlock(), OrderingBlock(), runs, s);
    TwoBlockRepairs(i.log, SnapshotBlock(), OrderingBlock(), runs, i, s);
  }
}
