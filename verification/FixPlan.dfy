/** The fix planner: every finding becomes a task or an exclusion. `digest` stands for the first ten
    hexadecimal digits of SHA-256. */
module FixPlan {
  import opened Text
  import opened Sorting
  import opened FailureBlocks
  import opened Triage

  datatype TaskKind = SnapshotRefresh | StaleAssertionUpdate | FixtureNormalization | DeterministicOrderingStabilization
  datatype Reason = UnsupportedFailureKind | MissingTargetFile | RiskyOrReviewRequired

  datatype Task = Task(id: string, ruleId: string, file: Option<string>, taskKind: TaskKind, findingIndex: nat,
                       signature: string, kind: Kind, repairClass: RepairClass, commands: seq<string>)
  datatype Exclusion = Exclusion(findingIndex: nat, signature: string, kind: Kind, summary: string, reason: Reason,
                                 repairClass: RepairClass, file: Option<string>)
  datatype Plan = Plan(tasks: seq<Task>, excluded: seq<Exclusion>)

  function TaskKindName(k: TaskKind): string {
    match k
    case SnapshotRefresh => "snapshot_refresh"
    case StaleAssertionUpdate => "stale_assertion_update"
    case FixtureNormalization => "fixture_normalization"
    case DeterministicOrderingStabilization => "deterministic_ordering_stabilization"
  }

  function RuleName(k: TaskKind): string {
    match k
    case SnapshotRefresh => "test-triage.snapshot-refresh"
    case StaleAssertionUpdate => "test-triage.stale-assertion-update"
    case FixtureNormalization => "test-triage.fixture-normalization"
    case DeterministicOrderingStabilization => "test-triage.ordering-stabilization"
  }

  function ReasonName(r: Reason): string {
    match r
    case UnsupportedFailureKind => "unsupported_failure_kind"
    case MissingTargetFile => "missing_target_file"
    case RiskyOrReviewRequired => "risky_or_review_required"
  }

  /** The task kind of each low-risk failure kind. */
  function Mapping(k: Kind): Option<TaskKind> {
    match k
    case SnapshotDrift => Some(SnapshotRefresh)
    case StaleAssertion => Some(StaleAssertionUpdate)
    case FixtureDrift => Some(FixtureNormalization)
    case OrderingDrift => Some(DeterministicOrderingStabilization)
    case _ => None
  }

  function StableTaskId(f: Finding, k: TaskKind, index: nat, digest: string -> string): string {
    var seed := TaskKindName(k) + "|" + KindName(f.facts.kind) + "|" + f.facts.package.GetOr("") + "|" +
                f.facts.testFile.GetOr("") + "|" + f.facts.testName.GetOr("") + "|" + Decimal(index);
    "task-" + digest(seed) + "-" + Decimal(index + 1)
  }

  function ToTask(f: Finding, index: nat, k: TaskKind, digest: string -> string, le: (string, string) -> bool): Task {
    Task(StableTaskId(f, k, index, digest), RuleName(k), f.facts.testFile, k, index, f.signature, f.facts.kind,
         f.facts.repairClass, Sort(f.facts.commands, le))
  }

  function ToExclusion(f: Finding, index: nat, reason: Reason): Exclusion {
    Exclusion(index, f.signature, f.facts.kind, f.facts.summary, reason, f.facts.repairClass, f.facts.testFile)
  }

  /** Why a finding is excluded; None for a finding that becomes a task. */
  function ExclusionReason(f: Finding): Option<Reason> {
    if f.facts.repairClass != AutofixPlanOnly then Some(RiskyOrReviewRequired)
    else if Mapping(f.facts.kind).None? then Some(UnsupportedFailureKind)
    else if !Given(f.facts.testFile) then Some(MissingTargetFile)
    else None
  }

  function TasksOf(findings: seq<Finding>, digest: string -> string, le: (string, string) -> bool): seq<Task> {
    if findings == [] then []
    else
      var n := |findings| - 1;
      TasksOf(findings[..n], digest, le) +
      if ExclusionReason(findings[n]).None? then
        [ToTask(findings[n], n, Mapping(findings[n].facts.kind).value, digest, le)]
      else
        []
  }

  function ExclusionsOf(findings: seq<Finding>): seq<Exclusion> {
    if findings == [] then []
    else
      var n := |findings| - 1;
      ExclusionsOf(findings[..n]) +
      match ExclusionReason(findings[n])
      case Some(reason) => [ToExclusion(findings[n], n, reason)]
      case None => []
  }

  function TaskFile(): Task -> string { (t: Task) => t.file.GetOr("") }
  function TaskRule(): Task -> string { (t: Task) => t.ruleId }
  function TaskId(): Task -> string { (t: Task) => t.id }
  function TaskOrder(le: (string, string) -> bool): (Task, Task) -> bool {
    Then(By(TaskFile(), le), Then(By(TaskRule(), le), By(TaskId(), le)))
  }

  function ExclusionFile(): Exclusion -> string { (x: Exclusion) => x.file.GetOr("") }
  function ExclusionReasonName(): Exclusion -> string { (x: Exclusion) => ReasonName(x.reason) }
  function ExclusionSummary(): Exclusion -> string { (x: Exclusion) => x.summary }
  function ExclusionOrder(le: (string, string) -> bool): (Exclusion, Exclusion) -> bool {
    Then(By(ExclusionFile(), le), Then(By(ExclusionReasonName(), le), By(ExclusionSummary(), le)))
  }

  function PlanOf(findings: seq<Finding>, digest: string -> string, le: (string, string) -> bool): Plan {
    Plan(Sort(TasksOf(findings, digest, le), TaskOrder(le)), Sort(ExclusionsOf(findings), ExclusionOrder(le)))
  }

  method BuildTestFixPlanArtifact(findings: seq<Finding>, digest: string -> string, le: (string, string) -> bool)
    returns (plan: Plan)
    ensures plan == PlanOf(findings, digest, le)
  {
    var tasks: seq<Task>, excluded: seq<Exclusion> := [], [];
    for findingIndex := 0 to |findings|
      invariant tasks == TasksOf(findings[..findingIndex], digest, le)
      invariant excluded == ExclusionsOf(findings[..findingIndex])
    {
      assert findings[..findingIndex + 1][..findingIndex] == findings[..findingIndex];
      var finding := findings[findingIndex];
      var mapping := Mapping(finding.facts.kind);
      if finding.facts.repairClass != AutofixPlanOnly {
        excluded := excluded + [ToExclusion(finding, findingIndex, RiskyOrReviewRequired)];
        continue;
      }
      if mapping.None? {
        excluded := excluded + [ToExclusion(finding, findingIndex, UnsupportedFailureKind)];
        continue;
      }
      if !Given(finding.facts.testFile) {
        excluded := excluded + [ToExclusion(finding, findingIndex, MissingTargetFile)];
        continue;
      }
      tasks := tasks + [ToTask(finding, findingIndex, mapping.value, digest, le)];
    }
    assert findings[..|findings|] == findings;
    return Plan(Sort(tasks, TaskOrder(le)), Sort(excluded, ExclusionOrder(le)));
  }

  // ----- The partition -----

  ghost predicate TaskFor(t: Task, findings: seq<Finding>, i: int, digest: string -> string,
                          le: (string, string) -> bool)
    requires 0 <= i < |findings|
  {
    ExclusionReason(findings[i]).None? && t == ToTask(findings[i], i, Mapping(findings[i].facts.kind).value, digest, le)
  }

  ghost predicate ExclusionFor(x: Exclusion, findings: seq<Finding>, i: int)
    requires 0 <= i < |findings|
  {
    ExclusionReason(findings[i]).Some? && x == ToExclusion(findings[i], i, ExclusionReason(findings[i]).value)
  }

  lemma {:induction false} TasksSpec(findings: seq<Finding>, digest: string -> string, le: (string, string) -> bool)
    ensures |TasksOf(findings, digest, le)| + |ExclusionsOf(findings)| == |findings|
    ensures forall t | t in TasksOf(findings, digest, le) ::
              t.findingIndex < |findings| && TaskFor(t, findings, t.findingIndex, digest, le)
    ensures NoDuplicates(TasksOf(findings, digest, le))
  {
    if findings != [] {
      var n := |findings| - 1;
      TasksSpec(findings[..n], digest, le);
      forall t | t in TasksOf(findings[..n], digest, le)
        ensures t.findingIndex < n && TaskFor(t, findings, t.findingIndex, digest, le)
      {
        assert TaskFor(t, findings[..n], t.findingIndex, digest, le);
      }
    }
  }

  lemma {:induction false} ExclusionsSpec(findings: seq<Finding>)
    ensures forall x | x in ExclusionsOf(findings) ::
              x.findingIndex < |findings| && ExclusionFor(x, findings, x.findingIndex)
    ensures NoDuplicates(ExclusionsOf(findings))
  {
    if findings != [] {
      var n := |findings| - 1;
      ExclusionsSpec(findings[..n]);
      forall x | x in ExclusionsOf(findings[..n])
        ensures x.findingIndex < n && ExclusionFor(x, findings, x.findingIndex)
      {
        assert ExclusionFor(x, findings[..n], x.findingIndex);
      }
    }
  }

  lemma {:induction false} EveryTask(findings: seq<Finding>, i: nat, digest: string -> string,
                                     le: (string, string) -> bool)
    requires i < |findings| && ExclusionReason(findings[i]).None?
    ensures ToTask(findings[i], i, Mapping(findings[i].facts.kind).value, digest, le) in TasksOf(findings, digest, le)
  {
    var n := |findings| - 1;
    if i < n {
      EveryTask(findings[..n], i, digest, le);
    } else {
      var all := TasksOf(findings, digest, le);
      assert all[|all| - 1] == ToTask(findings[i], i, Mapping(findings[i].facts.kind).value, digest, le);
    }
  }

  lemma {:induction false} EveryExclusion(findings: seq<Finding>, i: nat)
    requires i < |findings| && ExclusionReason(findings[i]).Some?
    ensures ToExclusion(findings[i], i, ExclusionReason(findings[i]).value) in ExclusionsOf(findings)
  {
    var n := |findings| - 1;
    if i < n {
      EveryExclusion(findings[..n], i);
    } else {
      var all := ExclusionsOf(findings);
      assert all[|all| - 1] == ToExclusion(findings[i], i, ExclusionReason(findings[i]).value);
    }
  }

  ghost predicate InTasks(plan: Plan, i: int) { exists k | 0 <= k < |plan.tasks| :: plan.tasks[k].findingIndex == i }

  ghost predicate InExcluded(plan: Plan, i: int) {
    exists k | 0 <= k < |plan.excluded| :: plan.excluded[k].findingIndex == i
  }

  /** No index twice within tasks, nor within exclusions, nor in both. */
  ghost predicate IndicesDistinct(plan: Plan) {
    (forall j, k | 0 <= j < k < |plan.tasks| :: plan.tasks[j].findingIndex != plan.tasks[k].findingIndex) &&
    (forall j, k | 0 <= j < k < |plan.excluded| :: plan.excluded[j].findingIndex != plan.excluded[k].findingIndex) &&
    (forall j, k | 0 <= j < |plan.tasks| && 0 <= k < |plan.excluded| ::
       plan.tasks[j].findingIndex != plan.excluded[k].findingIndex)
  }

  lemma SortedPlan(findings: seq<Finding>, digest: string -> string, le: (string, string) -> bool)
    ensures var plan := PlanOf(findings, digest, le);
            NoDuplicates(plan.tasks) && NoDuplicates(plan.excluded) && |plan.tasks| + |plan.excluded| == |findings| &&
            (forall t :: t in plan.tasks <==> t in TasksOf(findings, digest, le)) &&
            (forall x :: x in plan.excluded <==> x in ExclusionsOf(findings))
  {
    TasksSpec(findings, digest, le);
    ExclusionsSpec(findings);
    var plan := PlanOf(findings, digest, le);
    SortPermutes(TasksOf(findings, digest, le), TaskOrder(le));
    SortPermutes(ExclusionsOf(findings), ExclusionOrder(le));
    NoDuplicatesMultiset(TasksOf(findings, digest, le));
    NoDuplicatesMultiset(plan.tasks);
    NoDuplicatesMultiset(ExclusionsOf(findings));
    NoDuplicatesMultiset(plan.excluded);
  }

  /** Every task and exclusion is the one its index asks for, and none is there twice. */
  ghost predicate Accounts(plan: Plan, findings: seq<Finding>, digest: string -> string, le: (string, string) -> bool) {
    NoDuplicates(plan.tasks) && NoDuplicates(plan.excluded) &&
    (forall t | t in plan.tasks :: t.findingIndex < |findings| && TaskFor(t, findings, t.findingIndex, digest, le)) &&
    (forall x | x in plan.excluded :: x.findingIndex < |findings| && ExclusionFor(x, findings, x.findingIndex))
  }

  lemma PlanAccounts(findings: seq<Finding>, digest: string -> string, le: (string, string) -> bool)
    ensures Accounts(PlanOf(findings, digest, le), findings, digest, le)
  {
    SortedPlan(findings, digest, le);
    TasksSpec(findings, digest, le);
    ExclusionsSpec(findings);
  }

  lemma AccountsDistinct(plan: Plan, findings: seq<Finding>, digest: string -> string, le: (string, string) -> bool)
    requires Accounts(plan, findings, digest, le)
    ensures IndicesDistinct(plan)
  {
    var tasks, excluded := plan.tasks, plan.excluded;
    forall j, k | 0 <= j < k < |tasks| ensures tasks[j].findingIndex != tasks[k].findingIndex {
      assert tasks[j] in tasks && tasks[k] in tasks && tasks[j] != tasks[k];
    }
    forall j, k | 0 <= j < k < |excluded| ensures excluded[j].findingIndex != excluded[k].findingIndex {
      assert excluded[j] in excluded && excluded[k] in excluded && excluded[j] != excluded[k];
    }
    forall j, k | 0 <= j < |tasks| && 0 <= k < |excluded| ensures tasks[j].findingIndex != excluded[k].findingIndex {
      assert tasks[j] in tasks && excluded[k] in excluded;
    }
  }

  lemma AccountsFor(plan: Plan, findings: seq<Finding>, i: nat, digest: string -> string, le: (string, string) -> bool)
    requires Accounts(plan, findings, digest, le) && i < |findings|
    ensures InTasks(plan, i) ==> ExclusionReason(findings[i]).None?
    ensures InExcluded(plan, i) ==> ExclusionReason(findings[i]).Some?
  {
    if k :| 0 <= k < |plan.tasks| && plan.tasks[k].findingIndex == i { assert plan.tasks[k] in plan.tasks; }
    if k :| 0 <= k < |plan.excluded| && plan.excluded[k].findingIndex == i { assert plan.excluded[k] in plan.excluded; }
  }

  /** Every finding index is in exactly one task or exclusion, and which one is decided by its finding alone; nothing
      else is in the plan. */
  lemma PlanPartitions(findings: seq<Finding>, digest: string -> string, le: (string, string) -> bool)
    ensures var plan := PlanOf(findings, digest, le);
            |plan.tasks| + |plan.excluded| == |findings| && IndicesDistinct(plan) &&
            Accounts(plan, findings, digest, le) &&
            (forall i | 0 <= i < |findings| :: InTasks(plan, i) <==> MayBeFixed(findings[i])) &&
            (forall i | 0 <= i < |findings| :: InExcluded(plan, i) <==> !MayBeFixed(findings[i]))
  {
    var plan := PlanOf(findings, digest, le);
    SortedPlan(findings, digest, le);
    PlanAccounts(findings, digest, le);
    AccountsDistinct(plan, findings, digest, le);
    forall i | 0 <= i < |findings|
      ensures InTasks(plan, i) <==> MayBeFixed(findings[i])
      ensures InExcluded(plan, i) <==> !MayBeFixed(findings[i])
    {
      MayBeFixedExactly(findings[i]);
      WhereIs(findings, i, digest, le);
      AccountsFor(plan, findings, i, digest, le);
    }
  }

  lemma WhereIs(findings: seq<Finding>, i: nat, digest: string -> string, le: (string, string) -> bool)
    requires i < |findings|
    ensures ExclusionReason(findings[i]).None? ==> InTasks(PlanOf(findings, digest, le), i)
    ensures ExclusionReason(findings[i]).Some? ==> InExcluded(PlanOf(findings, digest, le), i)
  {
    SortedPlan(findings, digest, le);
    var plan := PlanOf(findings, digest, le);
    match ExclusionReason(findings[i])
    case None =>
      EveryTask(findings, i, digest, le);
      var t := ToTask(findings[i], i, Mapping(findings[i].facts.kind).value, digest, le);
      assert t in plan.tasks;
      var k :| 0 <= k < |plan.tasks| && plan.tasks[k] == t;
    case Some(reason) =>
      EveryExclusion(findings, i);
      var x := ToExclusion(findings[i], i, reason);
      assert x in plan.excluded;
      var k :| 0 <= k < |plan.excluded| && plan.excluded[k] == x;
  }

  // ----- What a task and an exclusion say -----

  /** A finding that triage cleared for planning, of a low-risk kind, with a file. */
  ghost predicate MayBeFixed(f: Finding) {
    f.facts.repairClass == AutofixPlanOnly && f.facts.testFile.Some? && f.facts.testFile.value != "" &&
    (f.facts.kind == SnapshotDrift || f.facts.kind == StaleAssertion || f.facts.kind == FixtureDrift ||
     f.facts.kind == OrderingDrift)
  }

  /** The task kind, its name and its rule, kind by kind. */
  ghost predicate RepairFor(t: Task, kind: Kind) {
    match kind
    case SnapshotDrift =>
      t.taskKind == SnapshotRefresh && TaskKindName(t.taskKind) == "snapshot_refresh" &&
      t.ruleId == "test-triage.snapshot-refresh" && KindName(kind) == "snapshot_drift"
    case StaleAssertion =>
      t.taskKind == StaleAssertionUpdate && TaskKindName(t.taskKind) == "stale_assertion_update" &&
      t.ruleId == "test-triage.stale-assertion-update" && KindName(kind) == "stale_assertion"
    case FixtureDrift =>
      t.taskKind == FixtureNormalization && TaskKindName(t.taskKind) == "fixture_normalization" &&
      t.ruleId == "test-triage.fixture-normalization" && KindName(kind) == "fixture_drift"
    case OrderingDrift =>
      t.taskKind == DeterministicOrderingStabilization &&
      TaskKindName(t.taskKind) == "deterministic_ordering_stabilization" &&
      t.ruleId == "test-triage.ordering-stabilization" && KindName(kind) == "ordering_drift"
    case _ => false
  }

  lemma MayBeFixedExactly(f: Finding)
    ensures ExclusionReason(f) == None <==> MayBeFixed(f)
  {
  }

  lemma RepairIsFor(f: Finding, index: nat, digest: string -> string, le: (string, string) -> bool)
    requires MayBeFixed(f)
    ensures Mapping(f.facts.kind).Some? &&
            RepairFor(ToTask(f, index, Mapping(f.facts.kind).value, digest, le), f.facts.kind)
  {
  }

  /** Every task of a plan repairs a finding that may be fixed, in its file, by the repair for its kind, with its
      commands sorted; its id ends in its number. */
  lemma TaskExactly(findings: seq<Finding>, t: Task, digest: string -> string, le: (string, string) -> bool)
    requires TotalPreorder(le) && t in PlanOf(findings, digest, le).tasks
    ensures t.findingIndex < |findings|
    ensures var f := findings[t.findingIndex];
            MayBeFixed(f) && RepairFor(t, f.facts.kind) && t.file == f.facts.testFile && t.signature == f.signature &&
            t.kind == f.facts.kind && t.repairClass == f.facts.repairClass &&
            multiset(t.commands) == multiset(f.facts.commands) && Sorted(t.commands, le) &&
            t.id == "task-" +
            digest(TaskKindName(t.taskKind) + "|" + KindName(t.kind) + "|" + f.facts.package.GetOr("") +
              "|" + f.facts.testFile.GetOr("") + "|" + f.facts.testName.GetOr("") + "|" + Decimal(t.findingIndex)) +
              "-" +
              Decimal(t.findingIndex + 1)
  {
    PlanAccounts(findings, digest, le);
    var f := findings[t.findingIndex];
    assert TaskFor(t, findings, t.findingIndex, digest, le);
    MayBeFixedExactly(f);
    RepairIsFor(f, t.findingIndex, digest, le);
    SortSorts(f.facts.commands, le);
    SortPermutes(f.facts.commands, le);
  }

  /** Why a finding is excluded: triage did not clear it; or its kind has no repair; or it has no file. */
  ghost predicate ReasonFor(f: Finding, reason: Reason) {
    match reason
    case RiskyOrReviewRequired => f.facts.repairClass == ReviewRequired
    case UnsupportedFailureKind =>
      f.facts.repairClass == AutofixPlanOnly && f.facts.kind != SnapshotDrift && f.facts.kind != StaleAssertion &&
      f.facts.kind != FixtureDrift && f.facts.kind != OrderingDrift
    case MissingTargetFile =>
      f.facts.repairClass == AutofixPlanOnly && f.facts.testFile.GetOr("") == "" &&
      (f.facts.kind == SnapshotDrift || f.facts.kind == StaleAssertion || f.facts.kind == FixtureDrift ||
       f.facts.kind == OrderingDrift)
  }

  /** Every exclusion of a plan is of a finding that may not be fixed, with the reason for it and the finding's data. */
  lemma ExclusionExactly(findings: seq<Finding>, x: Exclusion, digest: string -> string, le: (string, string) -> bool)
    requires x in PlanOf(findings, digest, le).excluded
    ensures x.findingIndex < |findings|
    ensures var f := findings[x.findingIndex];
            !MayBeFixed(f) && ReasonFor(f, x.reason) && x.signature == f.signature && x.kind == f.facts.kind &&
            x.summary == f.facts.summary && x.repairClass == f.facts.repairClass && x.file == f.facts.testFile
  {
    PlanAccounts(findings, digest, le);
    assert ExclusionFor(x, findings, x.findingIndex);
  }

  /** The first of the differing strings decides. */
  ghost predicate InOrder(a: (string, string, string), b: (string, string, string), le: (string, string) -> bool) {
    le(a.0, b.0) && (le(b.0, a.0) ==> le(a.1, b.1) && (le(b.1, a.1) ==> le(a.2, b.2)))
  }

  ghost function TaskKeys(t: Task): (string, string, string) { (t.file.GetOr(""), t.ruleId, t.id) }

  ghost function ExclusionKeys(x: Exclusion): (string, string, string) {
    (x.file.GetOr(""),
     match x.reason
     case RiskyOrReviewRequired => "risky_or_review_required"
     case UnsupportedFailureKind => "unsupported_failure_kind"
     case MissingTargetFile => "missing_target_file",
     x.summary)
  }

  /** Tasks come by file, rule and id, exclusions by file, reason and summary. */
  lemma PlanIsSorted(findings: seq<Finding>, digest: string -> string, le: (string, string) -> bool)
    requires TotalPreorder(le)
    ensures var tasks := PlanOf(findings, digest, le).tasks;
            forall i, j | 0 <= i < j < |tasks| :: InOrder(TaskKeys(tasks[i]), TaskKeys(tasks[j]), le)
    ensures var excluded := PlanOf(findings, digest, le).excluded;
            forall i, j | 0 <= i < j < |excluded| :: InOrder(ExclusionKeys(excluded[i]), ExclusionKeys(excluded[j]), le)
  {
    OrdersSort(findings, digest, le);
    var plan := PlanOf(findings, digest, le);
    forall i, j | 0 <= i < j < |plan.tasks| ensures InOrder(TaskKeys(plan.tasks[i]), TaskKeys(plan.tasks[j]), le) {
      TaskOrderMeans(plan.tasks[i], plan.tasks[j], le);
    }
    forall i, j | 0 <= i < j < |plan.excluded|
      ensures InOrder(ExclusionKeys(plan.excluded[i]), ExclusionKeys(plan.excluded[j]), le)
    {
      ExclusionOrderMeans(plan.excluded[i], plan.excluded[j], le);
    }
  }

  lemma TaskOrderMeans(a: Task, b: Task, le: (string, string) -> bool)
    requires TaskOrder(le)(a, b)
    ensures InOrder(TaskKeys(a), TaskKeys(b), le)
  {
  }

  lemma ExclusionOrderMeans(a: Exclusion, b: Exclusion, le: (string, string) -> bool)
    requires ExclusionOrder(le)(a, b)
    ensures InOrder(ExclusionKeys(a), ExclusionKeys(b), le)
  {
  }

  lemma OrdersSort(findings: seq<Finding>, digest: string -> string, le: (string, string) -> bool)
    requires TotalPreorder(le)
    ensures var plan := PlanOf(findings, digest, le);
            Sorted(plan.tasks, TaskOrder(le)) && Sorted(plan.excluded, ExclusionOrder(le))
  {
    ByPreorder(TaskFile(), le);
    ByPreorder(TaskRule(), le);
    ByPreorder(TaskId(), le);
    ThenPreorder(By(TaskRule(), le), By(TaskId(), le));
    ThenPreorder(By(TaskFile(), le), Then(By(TaskRule(), le), By(TaskId(), le)));
    SortSorts(TasksOf(findings, digest, le), TaskOrder(le));
    ExclusionsAreSorted(findings, le);
  }

  lemma ExclusionsAreSorted(findings: seq<Finding>, le: (string, string) -> bool)
    requires TotalPreorder(le)
    ensures Sorted(Sort(ExclusionsOf(findings), ExclusionOrder(le)), ExclusionOrder(le))
  {
    ByPreorder(ExclusionFile(), le);
    ByPreorder(ExclusionReasonName(), le);
    ByPreorder(ExclusionSummary(), le);
    ThenPreorder(By(ExclusionReasonName(), le), By(ExclusionSummary(), le));
    ThenPreorder(By(ExclusionFile(), le), Then(By(ExclusionReasonName(), le), By(ExclusionSummary(), le)));
    SortSorts(ExclusionsOf(findings), ExclusionOrder(le));
  }

  lemma DropPrefix(prefix: string, s: string)
    ensures (prefix + s)[|prefix|..] == s
  {
  }

  lemma IdSuffix(f: Finding, k: TaskKind, index: nat, digest: string -> string)
    requires forall seed :: |digest(seed)| == 10
    ensures |StableTaskId(f, k, index, digest)| >= 16 && StableTaskId(f, k, index, digest)[16..] == Decimal(index + 1)
  {
    var seed := TaskKindName(k) + "|" + KindName(f.facts.kind) + "|" + f.facts.package.GetOr("") + "|" +
                f.facts.testFile.GetOr("") + "|" + f.facts.testName.GetOr("") + "|" + Decimal(index);
    DropPrefix("task-" + digest(seed) + "-", Decimal(index + 1));
  }

  /** Different indices give different ids. */
  lemma IdsDiffer(f: Finding, k: TaskKind, i: nat, g: Finding, l: TaskKind, j: nat, digest: string -> string)
    requires (forall seed :: |digest(seed)| == 10) && i != j
    ensures StableTaskId(f, k, i, digest) != StableTaskId(g, l, j, digest)
  {
    IdSuffix(f, k, i, digest);
    IdSuffix(g, l, j, digest);
    SuffixesDiffer(StableTaskId(f, k, i, digest), StableTaskId(g, l, j, digest), i, j);
  }

  lemma SuffixesDiffer(x: string, y: string, i: nat, j: nat)
    requires i != j && |x| >= 16 && |y| >= 16 && x[16..] == Decimal(i + 1) && y[16..] == Decimal(j + 1)
    ensures x != y
  {
    DecimalValue(i + 1);
    DecimalValue(j + 1);
  }

  lemma TaskIdOf(t: Task, findings: seq<Finding>, digest: string -> string, le: (string, string) -> bool)
    requires t.findingIndex < |findings|
    ensures TaskFor(t, findings, t.findingIndex, digest, le) ==>
              t.id == StableTaskId(findings[t.findingIndex], t.taskKind, t.findingIndex, digest)
  {
  }

  ghost predicate IdsDistinct(tasks: seq<Task>) {
    forall j, k | 0 <= j < k < |tasks| :: tasks[j].id != tasks[k].id
  }

  /** Any two tasks have different ids, even if their digests collide: the index suffix tells them apart. */
  lemma TaskIdsDistinct(findings: seq<Finding>, digest: string -> string, le: (string, string) -> bool)
    requires forall seed :: |digest(seed)| == 10
    ensures IdsDistinct(PlanOf(findings, digest, le).tasks)
  {
    var plan := PlanOf(findings, digest, le);
    PlanAccounts(findings, digest, le);
    AccountsDistinct(plan, findings, digest, le);
    forall j, k | 0 <= j < k < |plan.tasks| ensures plan.tasks[j].id != plan.tasks[k].id {
      assert plan.tasks[j] in plan.tasks && plan.tasks[k] in plan.tasks;
      var t, u := plan.tasks[j], plan.tasks[k];
      TaskIdOf(t, findings, digest, le);
      TaskIdOf(u, findings, digest, le);
      IdsDiffer(findings[t.findingIndex], t.taskKind, t.findingIndex, findings[u.findingIndex], u.taskKind,
                u.findingIndex, digest);
    }
  }

  // ----- Plans made from a log -----

  ghost predicate NamedByLine(log: string, o: Oracles, file: string) {
    exists i | 0 <= i < |SplitLines(log)| ::
      (o.patterns.annotation(SplitLines(log)[i]).Some? &&
       o.patterns.annotation(SplitLines(log)[i]).value.file == file) ||
      o.patterns.suite(SplitLines(log)[i]) == Some(file)
  }

  lemma BlockFileFromLine(log: string, o: Oracles, i: nat)
    requires Sound(o) && i < |ParsedBlocks(log, o.patterns)| && ParsedBlocks(log, o.patterns)[i].file.Some?
    ensures NamedByLine(log, o, ParsedBlocks(log, o.patterns)[i].file.value)
  {
    var lines := SplitLines(log);
    if Blocks(lines, o.patterns) != [] {
      BlocksAreSpans(lines, o.patterns);
      var s := Spans(lines, o.patterns)[i];
      assert Located(Blocks(lines, o.patterns)[i], o.patterns, lines, s);
      assert 0 <= s.lo < |lines|;
    }
  }

  ghost predicate SafeTask(t: Task, log: string, o: Oracles) {
    (t.kind == SnapshotDrift || t.kind == FixtureDrift || t.kind == OrderingDrift) &&
    t.repairClass == AutofixPlanOnly &&
    Given(t.file) && NamedByLine(log, o, t.file.value)
  }

  lemma TaskIsSafe(log: string, f: Finding, t: Task, o: Oracles, le: (string, string) -> bool)
    requires Sound(o) && t.kind == f.facts.kind && t.repairClass == f.facts.repairClass && t.file == f.facts.testFile
    ensures FromBlock(f, ParsedBlocks(log, o.patterns), o, le) && ExclusionReason(f).None? ==> SafeTask(t, log, o)
  {
    var blocks := ParsedBlocks(log, o.patterns);
    if i :| 0 <= i < |blocks| && f == FindingOf(blocks[i], o, le) { FindingFromLog(log, i, o, le); }
  }

  lemma ReasonIsSupported(log: string, f: Finding, o: Oracles, le: (string, string) -> bool)
    requires Sound(o)
    ensures FromBlock(f, ParsedBlocks(log, o.patterns), o, le) ==> ExclusionReason(f) != Some(UnsupportedFailureKind)
  {
    var blocks := ParsedBlocks(log, o.patterns);
    if i :| 0 <= i < |blocks| && f == FindingOf(blocks[i], o, le) {
      FindingFromLog(log, i, o, le);
      LowRiskIsSupported(f);
    }
  }

  lemma LowRiskIsSupported(f: Finding)
    requires f.facts.repairClass == AutofixPlanOnly ==> LowRisk(f.facts.kind)
    ensures ExclusionReason(f) != Some(UnsupportedFailureKind)
  {
  }

  lemma PlanOfLogFindings(log: string, findings: seq<Finding>, o: Oracles, digest: string -> string,
                          le: (string, string) -> bool)
    requires Sound(o) && forall f | f in findings :: FromBlock(f, ParsedBlocks(log, o.patterns), o, le)
    ensures forall x | x in ExclusionsOf(findings) :: x.reason != UnsupportedFailureKind
    ensures forall t | t in TasksOf(findings, digest, le) :: SafeTask(t, log, o)
  {
    TasksSpec(findings, digest, le);
    ExclusionsSpec(findings);
    forall x | x in ExclusionsOf(findings) ensures x.reason != UnsupportedFailureKind {
      ReasonIsSupported(log, findings[x.findingIndex], o, le);
      assert ExclusionFor(x, findings, x.findingIndex);
    }
    forall t | t in TasksOf(findings, digest, le) ensures SafeTask(t, log, o) {
      assert TaskFor(t, findings, t.findingIndex, digest, le);
      TaskIsSafe(log, findings[t.findingIndex], t, o, le);
    }
  }

  /** For a plan made from a log: nothing is excluded as unsupported, and every task repairs one of three low-risk
      kinds in a file that an annotation or suite line of the log names. */
  lemma PlanFromLog(log: string, o: Oracles, digest: string -> string, le: (string, string) -> bool)
    requires Sound(o)
    ensures var plan := PlanOf(TriageOf(log, o, le).findings, digest, le);
            (forall x | x in plan.excluded :: x.reason != UnsupportedFailureKind) &&
            (forall t | t in plan.tasks :: SafeTask(t, log, o))
  {
    FindingsComeFromBlocks(log, o, le);
    PlanOfLogFindings(log, TriageOf(log, o, le).findings, o, digest, le);
    SortedPlan(TriageOf(log, o, le).findings, digest, le);
  }

  lemma FindingFromLog(log: string, i: nat, o: Oracles, le: (string, string) -> bool)
    requires Sound(o) && i < |ParsedBlocks(log, o.patterns)|
    ensures var f := FindingOf(ParsedBlocks(log, o.patterns)[i], o, le);
            f.facts.kind != StaleAssertion && (f.facts.repairClass == AutofixPlanOnly <==> LowRisk(f.facts.kind)) &&
            (f.facts.testFile.Some? ==> NamedByLine(log, o, f.facts.testFile.value))
  {
    if ParsedBlocks(log, o.patterns)[i].file.Some? { BlockFileFromLine(log, o, i); }
  }
}
