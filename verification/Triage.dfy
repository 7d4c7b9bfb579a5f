/** From a failure log to a triage artifact: classified findings, layer, eligibility, rerun commands. */
module Triage {
  import opened Text
  import opened Sorting
  import opened FailureBlocks

  datatype Kind =
    | RegistryTimeoutInstallFailure | CacheRestoreFailure | CompositeActionManifestParseFailure
    | ToolBootstrapFailure | ReleaseGovernancePreflightFailure | ContractsSnapshotDrift | DocsAuditContractFailure
    | CommandGovernanceEnforcementFailure | SnapshotDrift | StaleAssertion | FixtureDrift | OrderingDrift
    | MissingArtifact | EnvironmentLimitation | LikelyRegression | MissingExpectedFinding | ContractDrift
    | TestExpectationDrift | LintFailure | TypecheckFailure | RuntimeFailure | RecursiveWorkspaceFailure

  function KindName(k: Kind): string {
    match k
    case RegistryTimeoutInstallFailure => "registry_timeout_install_failure"
    case CacheRestoreFailure => "cache_restore_failure"
    case CompositeActionManifestParseFailure => "composite_action_manifest_parse_failure"
    case ToolBootstrapFailure => "tool_bootstrap_failure"
    case ReleaseGovernancePreflightFailure => "release_governance_preflight_failure"
    case ContractsSnapshotDrift => "contracts_snapshot_drift"
    case DocsAuditContractFailure => "docs_audit_contract_failure"
    case CommandGovernanceEnforcementFailure => "command_governance_enforcement_failure"
    case SnapshotDrift => "snapshot_drift"
    case StaleAssertion => "stale_assertion"
    case FixtureDrift => "fixture_drift"
    case OrderingDrift => "ordering_drift"
    case MissingArtifact => "missing_artifact"
    case EnvironmentLimitation => "environment_limitation"
    case LikelyRegression => "likely_regression"
    case MissingExpectedFinding => "missing_expected_finding"
    case ContractDrift => "contract_drift"
    case TestExpectationDrift => "test_expectation_drift"
    case LintFailure => "lint_failure"
    case TypecheckFailure => "typecheck_failure"
    case RuntimeFailure => "runtime_failure"
    case RecursiveWorkspaceFailure => "recursive_workspace_failure"
  }

  predicate LowRisk(k: Kind) { k == SnapshotDrift || k == StaleAssertion || k == FixtureDrift || k == OrderingDrift }

  predicate Infra(k: Kind) {
    k == RegistryTimeoutInstallFailure || k == CacheRestoreFailure || k == CompositeActionManifestParseFailure ||
    k == ToolBootstrapFailure || k == EnvironmentLimitation
  }

  predicate Governance(k: Kind) {
    k == ReleaseGovernancePreflightFailure || k == ContractsSnapshotDrift || k == DocsAuditContractFailure ||
    k == CommandGovernanceEnforcementFailure || k == MissingExpectedFinding || k == ContractDrift
  }

  datatype RepairClass = AutofixPlanOnly | ReviewRequired
  datatype Status = FailedStatus | PassedStatus | UnknownStatus
  datatype Layer = InfraLayer | GovernanceLayer | ProductLayer | UnknownLayer
  datatype Eligibility = Eligible | BlockedInfra | BlockedGovernance | NotApplicable

  datatype Facts = Facts(kind: Kind, package: Option<string>, testFile: Option<string>, testName: Option<string>,
                         commands: seq<string>, repairClass: RepairClass, summary: string)
  datatype Finding = Finding(facts: Facts, signature: string)

  datatype Artifact = Artifact(status: Status, layer: Layer, primary: Option<Kind>, eligibility: Eligibility,
                               findings: seq<Finding>, rerunCommands: seq<string>)

  /** The parts of the program left uninterpreted: line patterns, the classifier, the block summary, and the
      signature, which hashes facts of a finding and marker lines of its block. */
  datatype Oracles = Oracles(patterns: Patterns, classify: seq<string> -> Kind, summarize: seq<string> -> string,
                             signature: (Facts, seq<string>) -> string)

  /** The classifier can answer every kind but one, and a line that a pattern matches is not blank. */
  ghost predicate Sound(o: Oracles) {
    MatchesNonBlank(o.patterns) && forall lines :: o.classify(lines) != StaleAssertion
  }

  // ----- Lists of trimmed strings -----

  function Trimmed(values: seq<string>): seq<string> {
    if values == [] then []
    else
      var rest, t := Trimmed(values[..|values| - 1]), Trim(values[|values| - 1]);
      if values[|values| - 1] != "" && t != "" then rest + [t] else rest
  }

  /** Empty values dropped, the others trimmed, what is then empty dropped, each once, sorted. */
  function UniqueTrimmed(values: seq<string>, le: (string, string) -> bool): seq<string> {
    SortedSet(Trimmed(values), le)
  }

  lemma {:induction false} TrimmedSpec(values: seq<string>, x: string)
    ensures x in Trimmed(values) <==> x != "" && exists i | 0 <= i < |values| :: values[i] != "" && Trim(values[i]) == x
  {
    if values != [] {
      var n := |values| - 1;
      TrimmedSpec(values[..n], x);
      if i :| 0 <= i < |values| && values[i] != "" && Trim(values[i]) == x {
        if i < n { assert values[..n][i] == values[i]; }
      }
      if j :| 0 <= j < n && values[..n][j] != "" && Trim(values[..n][j]) == x { assert values[j] == values[..n][j]; }
    }
  }

  lemma UniqueTrimmedSpec(values: seq<string>, x: string, le: (string, string) -> bool)
    ensures x in UniqueTrimmed(values, le) <==>
            x != "" && exists i | 0 <= i < |values| :: values[i] != "" && Trim(values[i]) == x
    ensures NoDuplicates(UniqueTrimmed(values, le))
  {
    TrimmedSpec(values, x);
    DedupSpec(Trimmed(values));
    SortPermutes(Dedup(Trimmed(values)), le);
    NoDuplicatesMultiset(Dedup(Trimmed(values)));
    NoDuplicatesMultiset(UniqueTrimmed(values, le));
  }

  // ----- One finding -----

  predicate Given(s: Option<string>) { s.Some? && s.value != "" }

  function VerificationCommandList(workspace: Option<string>, file: Option<string>, kind: Kind): seq<string> {
    (if Given(workspace) && Given(file) then ["pnpm --filter " + workspace.value + " exec vitest run " + file.value]
     else []) +
    (if Given(workspace) && kind == LintFailure then ["pnpm --filter " + workspace.value + " lint"] else []) +
    (if Given(workspace) && kind == TypecheckFailure then
       ["pnpm --filter " + workspace.value + " exec tsc -p tsconfig.json --noEmit"] else []) +
    (if Given(workspace) then ["pnpm --filter " + workspace.value + " test"] else []) +
    [if kind == LintFailure then "pnpm -r lint"
     else if kind == TypecheckFailure then "pnpm -r build" else "pnpm -r test"]
  }

  function VerificationCommands(workspace: Option<string>, file: Option<string>, kind: Kind,
                                le: (string, string) -> bool): seq<string> {
    UniqueTrimmed(VerificationCommandList(workspace, file, kind), le)
  }

  /** Whatever the finding, there is a command to verify it with. */
  lemma AlwaysACommand(workspace: Option<string>, file: Option<string>, kind: Kind, le: (string, string) -> bool)
    ensures VerificationCommands(workspace, file, kind, le) != []
    ensures forall c | c in VerificationCommands(workspace, file, kind, le) :: c != ""
  {
    var list := VerificationCommandList(workspace, file, kind);
    var last := list[|list| - 1];
    assert last == "pnpm -r lint" || last == "pnpm -r build" || last == "pnpm -r test";
    TrimSolid(last);
    UniqueTrimmedSpec(list, last, le);
    forall c | c in VerificationCommands(workspace, file, kind, le) ensures c != "" { UniqueTrimmedSpec(list, c, le); }
  }

  function FindingOf(b: Block, o: Oracles, le: (string, string) -> bool): Finding {
    var kind := o.classify(b.lines);
    var facts := Facts(kind, b.workspace, b.file, b.testName, VerificationCommands(b.workspace, b.file, kind, le),
                       if LowRisk(kind) then AutofixPlanOnly else ReviewRequired, o.summarize(b.lines));
    Finding(facts, o.signature(facts, b.lines))
  }

  function FindingsOf(blocks: seq<Block>, o: Oracles, le: (string, string) -> bool): (r: seq<Finding>)
    ensures |r| == |blocks| && forall i | 0 <= i < |blocks| :: r[i] == FindingOf(blocks[i], o, le)
  {
    if blocks == [] then [] else [FindingOf(blocks[0], o, le)] + FindingsOf(blocks[1..], o, le)
  }

  function PackageKey(): Finding -> string { (f: Finding) => f.facts.package.GetOr("") }
  function FileKey(): Finding -> string { (f: Finding) => f.facts.testFile.GetOr("") }
  function NameKey(): Finding -> string { (f: Finding) => f.facts.testName.GetOr("") }

  function FindingOrder(le: (string, string) -> bool): (Finding, Finding) -> bool {
    Then(By(PackageKey(), le), Then(By(FileKey(), le), By(NameKey(), le)))
  }

  // ----- What a finding says -----

  /** The commands that verify a failure: the test file in its workspace, the workspace's lint or type check for such a
      failure, the workspace's tests, and always one for the whole repository. */
  ghost predicate Verifies(c: string, workspace: Option<string>, file: Option<string>, kind: Kind) {
    (workspace.GetOr("") != "" &&
     ((file.GetOr("") != "" && c == "pnpm --filter " + workspace.value + " exec vitest run " + file.value) ||
      (kind == LintFailure && c == "pnpm --filter " + workspace.value + " lint") ||
      (kind == TypecheckFailure && c == "pnpm --filter " + workspace.value + " exec tsc -p tsconfig.json --noEmit") ||
      c == "pnpm --filter " + workspace.value + " test")) ||
    (kind == LintFailure && c == "pnpm -r lint") || (kind == TypecheckFailure && c == "pnpm -r build") ||
    (kind != LintFailure && kind != TypecheckFailure && c == "pnpm -r test")
  }

  lemma ListVerifies(workspace: Option<string>, file: Option<string>, kind: Kind, c: string)
    ensures c in VerificationCommandList(workspace, file, kind) <==> Verifies(c, workspace, file, kind)
    ensures Verifies(c, workspace, file, kind) ==> c != ""
  {
  }

  /** The commands of a finding are those, trimmed. */
  lemma CommandsExactly(workspace: Option<string>, file: Option<string>, kind: Kind, x: string,
                        le: (string, string) -> bool)
    ensures x in VerificationCommands(workspace, file, kind, le) <==>
            x != "" && exists c :: Verifies(c, workspace, file, kind) && Trim(c) == x
    ensures NoDuplicates(VerificationCommands(workspace, file, kind, le))
  {
    var list := VerificationCommandList(workspace, file, kind);
    UniqueTrimmedSpec(list, x, le);
    if i :| 0 <= i < |list| && list[i] != "" && Trim(list[i]) == x {
      ListVerifies(workspace, file, kind, list[i]);
      assert list[i] in list;
    }
    if c :| Verifies(c, workspace, file, kind) && Trim(c) == x {
      ListVerifies(workspace, file, kind, c);
      var i :| 0 <= i < |list| && list[i] == c;
    }
  }

  /** The finding of a block: its attributes, its classification, and cleared for planning exactly for the four low-risk
      kinds. */
  lemma FindingExactly(b: Block, o: Oracles, le: (string, string) -> bool)
    ensures var f := FindingOf(b, o, le);
            f.facts.kind == o.classify(b.lines) && f.facts.package == b.workspace && f.facts.testFile == b.file &&
            f.facts.testName == b.testName && f.facts.summary == o.summarize(b.lines) &&
            f.facts.commands == VerificationCommands(b.workspace, b.file, f.facts.kind, le) &&
            f.signature == o.signature(f.facts, b.lines) &&
            f.facts.repairClass ==
              if f.facts.kind == SnapshotDrift || f.facts.kind == StaleAssertion || f.facts.kind == FixtureDrift ||
                 f.facts.kind == OrderingDrift
              then AutofixPlanOnly else ReviewRequired
  {
  }

  // ----- Layer and eligibility -----

  function Kinds(findings: seq<Finding>): (r: seq<Kind>)
    ensures |r| == |findings| && forall i | 0 <= i < |findings| :: r[i] == findings[i].facts.kind
  {
    if findings == [] then [] else [findings[0].facts.kind] + Kinds(findings[1..])
  }

  function DeriveLayer(kinds: seq<Kind>): Layer {
    if kinds == [] then UnknownLayer
    else if exists i | 0 <= i < |kinds| :: Infra(kinds[i]) then InfraLayer
    else if exists i | 0 <= i < |kinds| :: Governance(kinds[i]) then GovernanceLayer
    else ProductLayer
  }

  function DeriveEligibility(status: Status, layer: Layer): Eligibility {
    if status != FailedStatus then NotApplicable
    else match layer
      case InfraLayer => BlockedInfra
      case GovernanceLayer => BlockedGovernance
      case _ => Eligible
  }

  // ----- The primary failure class -----

  datatype Entry = Entry(kind: Kind, count: nat)

  function Count(kinds: seq<Kind>, k: Kind): nat { multiset(kinds)[k] }

  function Entries(order: seq<Kind>, kinds: seq<Kind>): (r: seq<Entry>)
    ensures |r| == |order| && forall i | 0 <= i < |order| :: r[i] == Entry(order[i], Count(kinds, order[i]))
  {
    if order == [] then [] else [Entry(order[0], Count(kinds, order[0]))] + Entries(order[1..], kinds)
  }

  function MoreFrequent(): (Entry, Entry) -> bool { (a: Entry, b: Entry) => a.count >= b.count }
  function EntryName(): Entry -> string { (e: Entry) => KindName(e.kind) }
  function RankOrder(le: (string, string) -> bool): (Entry, Entry) -> bool { Then(MoreFrequent(), By(EntryName(), le)) }

  function PrimaryClass(kinds: seq<Kind>, le: (string, string) -> bool): Option<Kind> {
    if kinds == [] then None
    else
      var ranked := Sort(Entries(Dedup(kinds), kinds), RankOrder(le));
      if ranked == [] then None else Some(ranked[0].kind)
  }

  method SummarizeFailures(kinds: seq<Kind>, le: (string, string) -> bool) returns (primary: Option<Kind>)
    ensures primary == PrimaryClass(kinds, le)
  {
    if |kinds| == 0 { return None; }
    var counts: map<Kind, nat>, order: seq<Kind> := map[], [];
    for n := 0 to |kinds|
      invariant order == Dedup(kinds[..n])
      invariant forall k :: k in counts <==> k in order
      invariant forall k | k in counts :: counts[k] == Count(kinds[..n], k)
      invariant forall k | k !in counts :: Count(kinds[..n], k) == 0
    {
      assert kinds[..n + 1][..n] == kinds[..n];
      assert kinds[..n + 1] == kinds[..n] + [kinds[n]];
      var k := kinds[n];
      if k !in counts { order := order + [k]; }
      counts := counts[k := (if k in counts then counts[k] else 0) + 1];
    }
    assert kinds[..|kinds|] == kinds;
    var entries: seq<Entry> := [];
    for n := 0 to |order|
      invariant |entries| == n && forall i | 0 <= i < n :: entries[i] == Entry(order[i], Count(kinds, order[i]))
    {
      assert order[n] in order;
      entries := entries + [Entry(order[n], counts[order[n]])];
    }
    assert entries == Entries(order, kinds);
    DedupSpec(kinds);
    assert kinds[0] in order;
    SortPermutes(entries, RankOrder(le));
    var ranked := Sort(entries, RankOrder(le));
    return Some(ranked[0].kind);
  }

  /** The first ranked entry precedes every entry. */
  lemma RankedFirst(entries: seq<Entry>, e: Entry, le: (string, string) -> bool)
    requires TotalPreorder(le) && e in entries
    ensures var ranked := Sort(entries, RankOrder(le));
            ranked != [] && ranked[0] in entries && RankOrder(le)(ranked[0], e)
  {
    var ranked := Sort(entries, RankOrder(le));
    SortPermutes(entries, RankOrder(le));
    RankIsPreorder(le);
    SortSorts(entries, RankOrder(le));
    var j :| 0 <= j < |ranked| && ranked[j] == e;
    assert ranked[0] in ranked;
    assert RankOrder(le)(e, e);
  }

  lemma RankMeans(a: Entry, b: Entry, le: (string, string) -> bool)
    requires RankOrder(le)(a, b)
    ensures a.count >= b.count && (a.count == b.count ==> le(KindName(a.kind), KindName(b.kind)))
  {
    var m := MoreFrequent();
    assert m(a, b) <==> a.count >= b.count;
    assert m(b, a) <==> b.count >= a.count;
  }

  /** No kind is more frequent than the primary class, and among the most frequent its name comes first. */
  lemma PrimaryIsMaximal(kinds: seq<Kind>, k: Kind, le: (string, string) -> bool)
    requires TotalPreorder(le) && k in kinds
    ensures var primary := PrimaryClass(kinds, le);
            primary.Some? && primary.value in kinds && Count(kinds, k) <= Count(kinds, primary.value) &&
            (Count(kinds, k) == Count(kinds, primary.value) ==> le(KindName(primary.value), KindName(k)))
  {
    var order := Dedup(kinds);
    var entries := Entries(order, kinds);
    DedupSpec(kinds);
    var i :| 0 <= i < |order| && order[i] == k;
    RankedFirst(entries, entries[i], le);
    var first := Sort(entries, RankOrder(le))[0];
    RankMeans(first, entries[i], le);
    var j :| 0 <= j < |entries| && entries[j] == first;
    assert order[j] in order;
  }

  lemma RankIsPreorder(le: (string, string) -> bool)
    requires TotalPreorder(le)
    ensures TotalPreorder(RankOrder(le))
  {
    var m := MoreFrequent();
    assert forall a, b :: m(a, b) <==> a.count >= b.count;
    ByPreorder(EntryName(), le);
    ThenPreorder(MoreFrequent(), By(EntryName(), le));
  }

  // ----- The artifact -----

  function AllCommands(findings: seq<Finding>): seq<string> {
    if findings == [] then [] else findings[0].facts.commands + AllCommands(findings[1..])
  }

  function StatusOf(findings: seq<Finding>, log: string): Status {
    if findings != [] then FailedStatus else if Trim(log) == "" then UnknownStatus else PassedStatus
  }

  function SortedFindings(log: string, o: Oracles, le: (string, string) -> bool): seq<Finding> {
    Sort(FindingsOf(ParsedBlocks(log, o.patterns), o, le), FindingOrder(le))
  }

  function TriageOf(log: string, o: Oracles, le: (string, string) -> bool): Artifact {
    var findings := SortedFindings(log, o, le);
    var kinds := Kinds(findings);
    var status, layer := StatusOf(findings, log), DeriveLayer(kinds);
    Artifact(status, layer, PrimaryClass(kinds, le), DeriveEligibility(status, layer), findings,
             UniqueTrimmed(AllCommands(findings), le))
  }

  method BuildTestTriageArtifact(log: string, o: Oracles, le: (string, string) -> bool) returns (r: Artifact)
    ensures r == TriageOf(log, o, le)
  {
    var parsedBlocks := ParseFailureBlocks(log, o.patterns);
    var findings := Sort(FindingsOf(parsedBlocks, o, le), FindingOrder(le));
    var kinds := Kinds(findings);
    var primary := SummarizeFailures(kinds, le);
    var status, layer := StatusOf(findings, log), DeriveLayer(kinds);
    return Artifact(status, layer, primary, DeriveEligibility(status, layer), findings,
                    UniqueTrimmed(AllCommands(findings), le));
  }

  ghost predicate FromBlock(f: Finding, blocks: seq<Block>, o: Oracles, le: (string, string) -> bool) {
    exists i | 0 <= i < |blocks| :: f == FindingOf(blocks[i], o, le)
  }

  lemma SortedFindingsFromBlocks(blocks: seq<Block>, o: Oracles, le: (string, string) -> bool)
    ensures var findings := Sort(FindingsOf(blocks, o, le), FindingOrder(le));
            multiset(findings) == multiset(FindingsOf(blocks, o, le)) && |findings| == |blocks| &&
            forall f | f in findings :: FromBlock(f, blocks, o, le)
  {
    var unsorted := FindingsOf(blocks, o, le);
    SortPermutes(unsorted, FindingOrder(le));
    forall f | f in unsorted ensures FromBlock(f, blocks, o, le) {
      var i :| 0 <= i < |unsorted| && unsorted[i] == f;
    }
  }

  /** The findings are those of the blocks, in another order. */
  lemma FindingsComeFromBlocks(log: string, o: Oracles, le: (string, string) -> bool)
    ensures multiset(TriageOf(log, o, le).findings) == multiset(FindingsOf(ParsedBlocks(log, o.patterns), o, le))
    ensures |TriageOf(log, o, le).findings| == |ParsedBlocks(log, o.patterns)|
    ensures forall f | f in TriageOf(log, o, le).findings :: FromBlock(f, ParsedBlocks(log, o.patterns), o, le)
  {
    SortedFindingsFromBlocks(ParsedBlocks(log, o.patterns), o, le);
  }

  /** By package, then file, then test name. */
  ghost predicate ComesBefore(a: Facts, b: Facts, le: (string, string) -> bool) {
    le(a.package.GetOr(""), b.package.GetOr("")) &&
    (le(b.package.GetOr(""), a.package.GetOr("")) ==>
       le(a.testFile.GetOr(""), b.testFile.GetOr("")) &&
       (le(b.testFile.GetOr(""), a.testFile.GetOr("")) ==> le(a.testName.GetOr(""), b.testName.GetOr(""))))
  }

  /** They are sorted by package, file and test name. */
  lemma FindingsAreSorted(log: string, o: Oracles, le: (string, string) -> bool)
    requires TotalPreorder(le)
    ensures var findings := TriageOf(log, o, le).findings;
            forall i, j | 0 <= i < j < |findings| :: ComesBefore(findings[i].facts, findings[j].facts, le)
  {
    FindingOrderSorts(ParsedBlocks(log, o.patterns), o, le);
    var findings := TriageOf(log, o, le).findings;
    forall i, j | 0 <= i < j < |findings| ensures ComesBefore(findings[i].facts, findings[j].facts, le) {
      FindingOrderMeans(findings[i], findings[j], le);
    }
  }

  lemma FindingOrderMeans(a: Finding, b: Finding, le: (string, string) -> bool)
    requires FindingOrder(le)(a, b)
    ensures ComesBefore(a.facts, b.facts, le)
  {
  }

  lemma FindingOrderSorts(blocks: seq<Block>, o: Oracles, le: (string, string) -> bool)
    requires TotalPreorder(le)
    ensures Sorted(Sort(FindingsOf(blocks, o, le), FindingOrder(le)), FindingOrder(le))
  {
    ByPreorder(PackageKey(), le);
    ByPreorder(FileKey(), le);
    ByPreorder(NameKey(), le);
    ThenPreorder(By(FileKey(), le), By(NameKey(), le));
    ThenPreorder(By(PackageKey(), le), Then(By(FileKey(), le), By(NameKey(), le)));
    SortSorts(FindingsOf(blocks, o, le), FindingOrder(le));
  }

  /** The status is failed exactly for a log with a non-blank character, unknown for the others, and never passed. */
  lemma StatusExactly(log: string, o: Oracles, le: (string, string) -> bool)
    requires Sound(o)
    ensures TriageOf(log, o, le).status == if IsBlank(log) then UnknownStatus else FailedStatus
  {
    NoBlocksIffBlank(log, o.patterns);
    FindingsComeFromBlocks(log, o, le);
    TrimEmpty(log);
  }

  /** The kinds that speak of the infrastructure. */
  const INFRA_KINDS: set<Kind> :=
    {RegistryTimeoutInstallFailure, CacheRestoreFailure, CompositeActionManifestParseFailure, ToolBootstrapFailure,
     EnvironmentLimitation}

  /** The kinds that speak of governance. */
  const GOVERNANCE_KINDS: set<Kind> :=
    {ReleaseGovernancePreflightFailure, ContractsSnapshotDrift, DocsAuditContractFailure,
     CommandGovernanceEnforcementFailure, MissingExpectedFinding, ContractDrift}

  ghost predicate SomeKind(findings: seq<Finding>, kinds: set<Kind>) {
    exists f | f in findings :: f.facts.kind in kinds
  }

  lemma InfraKinds(k: Kind)
    ensures Infra(k) <==> k in INFRA_KINDS
  {
  }

  lemma GovernanceKinds(k: Kind)
    ensures Governance(k) <==> k in GOVERNANCE_KINDS
  {
  }

  lemma SomeInfra(findings: seq<Finding>)
    ensures (exists i | 0 <= i < |findings| :: Infra(Kinds(findings)[i])) <==> SomeKind(findings, INFRA_KINDS)
  {
    if i :| 0 <= i < |findings| && Infra(Kinds(findings)[i]) {
      InfraKinds(findings[i].facts.kind);
      assert findings[i] in findings;
    }
    if f :| f in findings && f.facts.kind in INFRA_KINDS {
      InfraKinds(f.facts.kind);
      var i :| 0 <= i < |findings| && findings[i] == f;
      assert Infra(Kinds(findings)[i]);
    }
  }

  lemma SomeGovernance(findings: seq<Finding>)
    ensures (exists i | 0 <= i < |findings| :: Governance(Kinds(findings)[i])) <==> SomeKind(findings, GOVERNANCE_KINDS)
  {
    if i :| 0 <= i < |findings| && Governance(Kinds(findings)[i]) {
      GovernanceKinds(findings[i].facts.kind);
      assert findings[i] in findings;
    }
    if f :| f in findings && f.facts.kind in GOVERNANCE_KINDS {
      GovernanceKinds(f.facts.kind);
      var i :| 0 <= i < |findings| && findings[i] == f;
      assert Governance(Kinds(findings)[i]);
    }
  }

  lemma DerivedExactly(findings: seq<Finding>)
    ensures var layer := DeriveLayer(Kinds(findings));
            if findings == [] then layer == UnknownLayer
            else if SomeKind(findings, INFRA_KINDS) then layer == InfraLayer
            else if SomeKind(findings, GOVERNANCE_KINDS) then layer == GovernanceLayer
            else layer == ProductLayer
  {
    SomeInfra(findings);
    SomeGovernance(findings);
  }

  /** The layer is the worst that the findings speak of, infrastructure before governance, and says what may be done. */
  lemma LayerExactly(log: string, o: Oracles, le: (string, string) -> bool)
    requires Sound(o)
    ensures var a := TriageOf(log, o, le);
            if IsBlank(log) then a.findings == [] && a.layer == UnknownLayer && a.eligibility == NotApplicable
            else if SomeKind(a.findings, INFRA_KINDS) then a.layer == InfraLayer && a.eligibility == BlockedInfra
            else if SomeKind(a.findings, GOVERNANCE_KINDS) then
              a.layer == GovernanceLayer && a.eligibility == BlockedGovernance
            else a.findings != [] && a.layer == ProductLayer && a.eligibility == Eligible
  {
    StatusExactly(log, o, le);
    NoBlocksIffBlank(log, o.patterns);
    FindingsComeFromBlocks(log, o, le);
    DerivedExactly(TriageOf(log, o, le).findings);
  }

  ghost predicate ProductOnly(findings: seq<Finding>) {
    forall f | f in findings :: !Infra(f.facts.kind) && !Governance(f.facts.kind)
  }

  lemma ProductLayerExactly(findings: seq<Finding>)
    ensures DeriveLayer(Kinds(findings)) == InfraLayer || DeriveLayer(Kinds(findings)) == GovernanceLayer <==>
            !ProductOnly(findings)
  {
    var kinds := Kinds(findings);
    forall i | 0 <= i < |kinds| && (Infra(kinds[i]) || Governance(kinds[i])) ensures !ProductOnly(findings) {
      assert findings[i] in findings;
    }
    if !ProductOnly(findings) {
      var f :| f in findings && (Infra(f.facts.kind) || Governance(f.facts.kind));
      var i :| 0 <= i < |findings| && findings[i] == f;
      assert Infra(kinds[i]) || Governance(kinds[i]);
    }
  }

  /** Remediation is eligible exactly when the log is not blank and no finding is an infrastructure or governance
      failure. */
  lemma EligibleExactly(log: string, o: Oracles, le: (string, string) -> bool)
    requires Sound(o)
    ensures TriageOf(log, o, le).eligibility == Eligible <==>
            !IsBlank(log) && ProductOnly(TriageOf(log, o, le).findings)
  {
    StatusExactly(log, o, le);
    ProductLayerExactly(TriageOf(log, o, le).findings);
  }

  lemma {:induction false} CommandsOfFinding(findings: seq<Finding>, f: Finding, c: string)
    requires f in findings && c in f.facts.commands
    ensures c in AllCommands(findings)
  {
    if f != findings[0] { CommandsOfFinding(findings[1..], f, c); }
  }

  /** A verification command is trimmed already, so collecting the commands keeps it. */
  lemma CommandSurvives(workspace: Option<string>, file: Option<string>, kind: Kind, c: string, all: seq<string>,
                        le: (string, string) -> bool)
    requires c in VerificationCommands(workspace, file, kind, le) && c in all
    ensures UniqueTrimmed(all, le) != []
  {
    var list := VerificationCommandList(workspace, file, kind);
    UniqueTrimmedSpec(list, c, le);
    var i :| 0 <= i < |list| && list[i] != "" && Trim(list[i]) == c;
    TrimTwice(list[i]);
    var j :| 0 <= j < |all| && all[j] == c;
    UniqueTrimmedSpec(all, c, le);
  }

  lemma CommandsToRerun(findings: seq<Finding>, blocks: seq<Block>, o: Oracles, le: (string, string) -> bool)
    requires findings != [] && FromBlock(findings[0], blocks, o, le)
    ensures UniqueTrimmed(AllCommands(findings), le) != []
  {
    var f := findings[0];
    var i :| 0 <= i < |blocks| && f == FindingOf(blocks[i], o, le);
    var b := blocks[i];
    AlwaysACommand(b.workspace, b.file, f.facts.kind, le);
    var c := f.facts.commands[0];
    CommandsOfFinding(findings, f, c);
    CommandSurvives(b.workspace, b.file, f.facts.kind, c, AllCommands(findings), le);
  }

  /** There is something to rerun as soon as there is a finding. */
  lemma RerunNeverEmpty(log: string, o: Oracles, le: (string, string) -> bool)
    ensures TriageOf(log, o, le).findings != [] ==> TriageOf(log, o, le).rerunCommands != []
  {
    FindingsComeFromBlocks(log, o, le);
    var findings := TriageOf(log, o, le).findings;
    if findings != [] { CommandsToRerun(findings, ParsedBlocks(log, o.patterns), o, le); }
  }

  ghost predicate Asks(findings: seq<Finding>, c: string) {
    exists f | f in findings :: c in f.facts.commands
  }

  lemma {:induction false} AllCommandsSpec(findings: seq<Finding>, c: string)
    ensures c in AllCommands(findings) <==> Asks(findings, c)
  {
    if findings != [] {
      AllCommandsSpec(findings[1..], c);
      assert findings == [findings[0]] + findings[1..];
    }
  }

  /** A verification command is not empty and trimmed. */
  ghost predicate Solid(c: string) { c != "" && Trim(c) == c }

  lemma CommandsAreTrimmed(workspace: Option<string>, file: Option<string>, kind: Kind, c: string,
                           le: (string, string) -> bool)
    requires c in VerificationCommands(workspace, file, kind, le)
    ensures Solid(c)
  {
    var list := VerificationCommandList(workspace, file, kind);
    UniqueTrimmedSpec(list, c, le);
    var i :| 0 <= i < |list| && list[i] != "" && Trim(list[i]) == c;
    TrimTwice(list[i]);
  }

  lemma AskedIsTrimmed(findings: seq<Finding>, blocks: seq<Block>, o: Oracles, c: string, le: (string, string) -> bool)
    requires Asks(findings, c) && forall f | f in findings :: FromBlock(f, blocks, o, le)
    ensures Solid(c)
  {
    var f :| f in findings && c in f.facts.commands;
    var i :| 0 <= i < |blocks| && f == FindingOf(blocks[i], o, le);
    CommandsAreTrimmed(blocks[i].workspace, blocks[i].file, f.facts.kind, c, le);
  }

  lemma TrimmedAlready(all: seq<string>, c: string, le: (string, string) -> bool)
    requires forall x | x in all :: Solid(x)
    ensures c in UniqueTrimmed(all, le) <==> c in all
  {
    UniqueTrimmedSpec(all, c, le);
    if c in all {
      var i :| 0 <= i < |all| && all[i] == c;
      assert all[i] != "" && Trim(all[i]) == c;
    }
    if c in UniqueTrimmed(all, le) {
      var i :| 0 <= i < |all| && all[i] != "" && Trim(all[i]) == c;
      assert all[i] in all;
    }
  }

  /** The rerun list holds exactly the commands of the findings, each once and in order. */
  lemma RerunExactly(log: string, o: Oracles, c: string, le: (string, string) -> bool)
    requires TotalPreorder(le)
    ensures var a := TriageOf(log, o, le);
            (c in a.rerunCommands <==> Asks(a.findings, c)) && NoDuplicates(a.rerunCommands) &&
            Sorted(a.rerunCommands, le)
  {
    var findings := TriageOf(log, o, le).findings;
    FindingsComeFromBlocks(log, o, le);
    forall x | x in AllCommands(findings) ensures Solid(x) {
      AllCommandsSpec(findings, x);
      AskedIsTrimmed(findings, ParsedBlocks(log, o.patterns), o, x, le);
    }
    TrimmedAlready(AllCommands(findings), c, le);
    AllCommandsSpec(findings, c);
    SortedSetSpec(Trimmed(AllCommands(findings)), le);
  }
}
