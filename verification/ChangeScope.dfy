/** The change-scope bundle of a plan: canonical file lists and a patch budget that grows with the plan.
    The budget's multipliers are exact tenths; `digest` stands for the first twelve hexadecimal digits of SHA-256. */
module ChangeScope {
  import opened Text
  import opened Sorting

  datatype RiskLevel = Low | Medium | High
  datatype Budget = Budget(maxFiles: nat, maxHunks: nat, maxAddedLines: nat, maxRemovedLines: nat)
  datatype PlanTask = PlanTask(file: Option<string>, ruleId: Option<string>)
  datatype Bundle = Bundle(scopeId: string, allowedFiles: seq<string>, budget: Budget, boundaryChecks: seq<string>,
                           expectedTests: seq<string>, docsSurfaces: seq<string>, rulesTouched: seq<string>,
                           riskLevel: RiskLevel, provenanceRefs: seq<string>)

  function Filter(s: seq<string>, keep: string -> bool): (r: seq<string>)
    ensures forall x :: x in r <==> x in s && keep(x)
  {
    if s == [] then [] else
      var rest := Filter(s[..|s| - 1], keep);
      assert s == s[..|s| - 1] + [s[|s| - 1]];
      if keep(s[|s| - 1]) then rest + [s[|s| - 1]] else rest
  }

  function NonEmpty(): string -> bool { (x: string) => x != "" }

  function StartsWith(prefix: string): string -> bool { (x: string) => prefix <= x }

  /** The non-empty values, each once, sorted. */
  function UniqueSorted(values: seq<string>, le: (string, string) -> bool): seq<string> {
    Sort(Filter(Dedup(values), NonEmpty()), le)
  }

  function ScoreToRisk(score: nat): RiskLevel {
    if score >= 5 then High else if score >= 2 then Medium else Low
  }

  function Max(a: nat, b: nat): nat { if a < b then b else a }

  /** A number of tenths rounded to the nearest integer, halves up. */
  function RoundTenths(n: nat): nat { (n + 5) / 10 }

  /** fileCount * unit * multiplier in tenths; the multipliers are 1.4, 1.1 and 0.9. */
  function Scaled(fileCount: nat, unit: nat, risk: RiskLevel): nat { InTenths(fileCount * unit, risk) }

  function InTenths(base: nat, risk: RiskLevel): nat {
    match risk
    case High => 14 * base
    case Medium => 11 * base
    case Low => 9 * base
  }

  function BudgetFromFiles(fileTotal: nat, risk: RiskLevel): Budget {
    var fileCount := Max(fileTotal, 1);
    Budget(fileCount,
           Max(3, RoundTenths(Scaled(fileCount, 4, risk))),
           Max(40, RoundTenths(Scaled(fileCount, 120, risk))),
           Max(20, RoundTenths(Scaled(fileCount, 90, risk))))
  }

  function Anywhere(files: seq<string>, prefix: string): bool { exists i | 0 <= i < |files| :: prefix <= files[i] }

  function ExpectedTests(files: seq<string>, isTest: string -> bool, le: (string, string) -> bool): seq<string> {
    var tests := Filter(files, isTest);
    if tests != [] then UniqueSorted(tests, le)
    else if Anywhere(files, "packages/cli/src/commands/") then ["pnpm --filter @fawxzzy/playbook-cli test"]
    else if Anywhere(files, "packages/engine/src/") then ["pnpm --filter @zachariahredfield/playbook-engine test"]
    else []
  }

  function BoundaryChecks(files: seq<string>, le: (string, string) -> bool): seq<string> {
    UniqueSorted(["same-inputs-produce-same-change-scope-artifact", "no-mutation-authority-escalation",
                  if files != [] then "writes-must-stay-inside-allowedFiles" else "proposal-only-no-write-authority"],
                  le)
  }

  function RiskName(risk: RiskLevel): string {
    match risk
    case Low => "low"
    case Medium => "medium"
    case High => "high"
  }

  function JoinBar(parts: seq<string>): string {
    if parts == [] then "" else if |parts| == 1 then parts[0] else parts[0] + "|" + JoinBar(parts[1..])
  }

  function BuildBundle(command: string, artifactPath: string, files: seq<string>, rules: seq<string>, risk: RiskLevel,
                       provenance: seq<string>, isTest: string -> bool, digest: string -> string,
                       le: (string, string) -> bool): Bundle {
    var allowedFiles := UniqueSorted(files, le);
    var rulesTouched := UniqueSorted(rules, le);
    var checks := UniqueSorted(BoundaryChecks(allowedFiles, le), le);
    var seed := JoinBar([command, artifactPath] + allowedFiles + rulesTouched + [RiskName(risk)] + checks);
    Bundle("scope-" + digest(seed), allowedFiles, BudgetFromFiles(|allowedFiles|, risk), checks,
           UniqueSorted(ExpectedTests(allowedFiles, isTest, le), le),
           UniqueSorted(Filter(allowedFiles, StartsWith("docs/")), le),
           rulesTouched, risk, UniqueSorted(provenance, le))
  }

  function Given(value: Option<string>): seq<string> {
    if value.Some? && value.value != "" then [value.value] else []
  }

  /** The files of the tasks that name one, in task order. */
  function Files(tasks: seq<PlanTask>): seq<string> {
    if tasks == [] then [] else Files(tasks[..|tasks| - 1]) + Given(tasks[|tasks| - 1].file)
  }

  function Rules(tasks: seq<PlanTask>): seq<string> {
    if tasks == [] then [] else Rules(tasks[..|tasks| - 1]) + Given(tasks[|tasks| - 1].ruleId)
  }

  function RiskOfPlan(taskCount: nat): RiskLevel {
    ScoreToRisk(if taskCount >= 8 then 5 else if taskCount >= 3 then 2 else 1)
  }

  function BundleFromPlan(tasks: seq<PlanTask>, isTest: string -> bool, digest: string -> string,
                          le: (string, string) -> bool): Bundle {
    BuildBundle("plan", ".playbook/plan.json", UniqueSorted(Files(tasks), le), UniqueSorted(Rules(tasks), le),
                RiskOfPlan(|tasks|), [".playbook/plan.json", "command:plan"], isTest, digest, le)
  }

  // ----- Canonical lists -----

  lemma {:induction false} FilterNoDuplicates(s: seq<string>, keep: string -> bool)
    requires NoDuplicates(s)
    ensures NoDuplicates(Filter(s, keep))
  {
    if s != [] {
      FilterNoDuplicates(s[..|s| - 1], keep);
      assert s == s[..|s| - 1] + [s[|s| - 1]];
    }
  }

  lemma UniqueSortedSpec(s: seq<string>, le: (string, string) -> bool)
    ensures NoDuplicates(UniqueSorted(s, le))
    ensures forall x :: x in UniqueSorted(s, le) <==> x in s && x != ""
  {
    DedupSpec(s);
    var kept := Filter(Dedup(s), NonEmpty());
    FilterNoDuplicates(Dedup(s), NonEmpty());
    SortPermutes(kept, le);
    NoDuplicatesMultiset(kept);
    NoDuplicatesMultiset(UniqueSorted(s, le));
  }

  lemma UniqueSortedCanonical(a: seq<string>, b: seq<string>, le: (string, string) -> bool)
    requires TotalOrder(le) && forall x :: x in a <==> x in b
    ensures UniqueSorted(a, le) == UniqueSorted(b, le)
  {
    UniqueSortedSpec(a, le);
    UniqueSortedSpec(b, le);
    SameSetSameMultiset(UniqueSorted(a, le), UniqueSorted(b, le));
    SortSorts(Filter(Dedup(a), NonEmpty()), le);
    SortSorts(Filter(Dedup(b), NonEmpty()), le);
    SortedUnique(UniqueSorted(a, le), UniqueSorted(b, le), le);
  }

  ghost predicate TouchedBy(tasks: seq<PlanTask>, file: string) {
    exists i | 0 <= i < |tasks| :: tasks[i].file == Some(file) && file != ""
  }

  ghost predicate NamedBy(tasks: seq<PlanTask>, rule: string) {
    exists i | 0 <= i < |tasks| :: tasks[i].ruleId == Some(rule) && rule != ""
  }

  lemma TouchedByLast(tasks: seq<PlanTask>, file: string)
    requires tasks != []
    ensures var n := |tasks| - 1;
            TouchedBy(tasks, file) <==> TouchedBy(tasks[..n], file) || file in Given(tasks[n].file)
  {
    var n := |tasks| - 1;
    assert forall i | 0 <= i < n :: tasks[..n][i] == tasks[i];
  }

  lemma NamedByLast(tasks: seq<PlanTask>, rule: string)
    requires tasks != []
    ensures var n := |tasks| - 1; NamedBy(tasks, rule) <==> NamedBy(tasks[..n], rule) || rule in Given(tasks[n].ruleId)
  {
    var n := |tasks| - 1;
    assert forall i | 0 <= i < n :: tasks[..n][i] == tasks[i];
  }

  lemma {:induction false} FilesSpec(tasks: seq<PlanTask>, file: string)
    ensures file in Files(tasks) <==> TouchedBy(tasks, file)
  {
    if tasks != [] {
      FilesSpec(tasks[..|tasks| - 1], file);
      TouchedByLast(tasks, file);
    }
  }

  lemma {:induction false} RulesSpec(tasks: seq<PlanTask>, rule: string)
    ensures rule in Rules(tasks) <==> NamedBy(tasks, rule)
  {
    if tasks != [] {
      RulesSpec(tasks[..|tasks| - 1], rule);
      NamedByLast(tasks, rule);
    }
  }

  lemma FileKept(a: seq<PlanTask>, b: seq<PlanTask>, x: string)
    requires forall t | t in a :: t in b
    ensures x in Files(a) ==> x in Files(b)
    ensures x in Rules(a) ==> x in Rules(b)
  {
    FilesSpec(a, x);
    FilesSpec(b, x);
    RulesSpec(a, x);
    RulesSpec(b, x);
    if x in Files(a) {
      var i :| 0 <= i < |a| && a[i].file == Some(x);
      assert a[i] in b;
    }
    if x in Rules(a) {
      var i :| 0 <= i < |a| && a[i].ruleId == Some(x);
      assert a[i] in b;
    }
  }

  lemma SubPlan(a: seq<PlanTask>, b: seq<PlanTask>)
    requires multiset(a) <= multiset(b)
    ensures |a| <= |b|
    ensures forall x :: x in Files(a) ==> x in Files(b)
    ensures forall x :: x in Rules(a) ==> x in Rules(b)
  {
    assert multiset(b) == multiset(a) + (multiset(b) - multiset(a));
    assert |multiset(a)| == |a| && |multiset(b)| == |b|;
    forall t | t in a ensures t in b { assert t in multiset(a); assert t in multiset(b); }
    forall x ensures (x in Files(a) ==> x in Files(b)) && (x in Rules(a) ==> x in Rules(b)) { FileKept(a, b, x); }
  }

  /** The order of the plan's tasks does not show in the bundle, its identifier included. */
  lemma BundleIsCanonical(a: seq<PlanTask>, b: seq<PlanTask>, isTest: string -> bool, digest: string -> string,
                          le: (string, string) -> bool)
    requires TotalOrder(le) && multiset(a) == multiset(b)
    ensures BundleFromPlan(a, isTest, digest, le) == BundleFromPlan(b, isTest, digest, le)
  {
    SubPlan(a, b);
    SubPlan(b, a);
    UniqueSortedCanonical(Files(a), Files(b), le);
    UniqueSortedCanonical(Rules(a), Rules(b), le);
  }

  // ----- The budget -----

  lemma {:induction false} LengthIsCardinality(s: seq<string>)
    requires NoDuplicates(s)
    ensures |s| == |set x | x in s|
  {
    if s != [] {
      var rest := s[..|s| - 1];
      LengthIsCardinality(rest);
      assert s == rest + [s[|s| - 1]];
      assert (set x | x in s) == (set x | x in rest) + {s[|s| - 1]};
    }
  }

  lemma SubsetCardinality(a: set<string>, b: set<string>)
    requires a <= b
    ensures |a| <= |b|
  {
    assert b == a + (b - a);
  }

  ghost function TaskFiles(tasks: seq<PlanTask>): set<string> {
    set file | file in Files(tasks)
  }

  lemma {:induction false} FilesNonEmpty(tasks: seq<PlanTask>)
    ensures "" !in Files(tasks)
  {
    if tasks != [] { FilesNonEmpty(tasks[..|tasks| - 1]); }
  }

  function AllowedFiles(tasks: seq<PlanTask>, le: (string, string) -> bool): seq<string> {
    UniqueSorted(UniqueSorted(Files(tasks), le), le)
  }

  lemma SameCardinality(a: seq<string>, b: seq<string>)
    requires forall x :: x in a <==> x in b
    ensures (set x | x in a) == (set x | x in b)
  {
  }

  lemma AllowedFilesAre(tasks: seq<PlanTask>, le: (string, string) -> bool)
    ensures NoDuplicates(AllowedFiles(tasks, le)) && |AllowedFiles(tasks, le)| == |TaskFiles(tasks)|
    ensures forall file :: file in AllowedFiles(tasks, le) <==> file in TaskFiles(tasks)
  {
    var allowed := AllowedFiles(tasks, le);
    UniqueSortedSpec(Files(tasks), le);
    UniqueSortedSpec(UniqueSorted(Files(tasks), le), le);
    FilesNonEmpty(tasks);
    LengthIsCardinality(allowed);
    SameCardinality(allowed, Files(tasks));
  }

  lemma BundleParts(tasks: seq<PlanTask>, isTest: string -> bool, digest: string -> string,
                    le: (string, string) -> bool)
    ensures var bundle := BundleFromPlan(tasks, isTest, digest, le);
            bundle.allowedFiles == AllowedFiles(tasks, le) &&
            bundle.rulesTouched == UniqueSorted(UniqueSorted(Rules(tasks), le), le) &&
            bundle.docsSurfaces == UniqueSorted(Filter(AllowedFiles(tasks, le), StartsWith("docs/")), le) &&
            bundle.expectedTests == UniqueSorted(ExpectedTests(AllowedFiles(tasks, le), isTest, le), le) &&
            bundle.riskLevel == RiskOfPlan(|tasks|) &&
            bundle.budget == BudgetFromFiles(|AllowedFiles(tasks, le)|, RiskOfPlan(|tasks|))
  {
  }

  /** The budget allows every file the plan names, and those only; its limit is their number, but at least one. */
  lemma BudgetIsSufficient(tasks: seq<PlanTask>, isTest: string -> bool, digest: string -> string,
                           le: (string, string) -> bool)
    ensures var bundle := BundleFromPlan(tasks, isTest, digest, le);
            bundle.budget.maxFiles == Max(|TaskFiles(tasks)|, 1) &&
            forall file :: file in bundle.allowedFiles <==> file in TaskFiles(tasks)
  {
    AllowedFilesAre(tasks, le);
    BundleParts(tasks, isTest, digest, le);
  }

  /** x is the integer nearest to so many tenths, halves up. */
  ghost predicate NearestTo(x: nat, tenths: nat) { 10 * x - 5 <= tenths < 10 * x + 5 }

  /** The limits of n files at this many tenths of lines added and removed and of hunks per file. */
  ghost predicate LimitsOf(b: Budget, n: nat, added: nat, removed: nat, hunkTenths: nat) {
    b.maxFiles == n && b.maxAddedLines == added * n && b.maxRemovedLines == removed * n &&
    exists x: nat :: NearestTo(x, hunkTenths * n) && b.maxHunks == if x < 3 then 3 else x
  }

  lemma LimitsAre(n: nat, risk: RiskLevel, added: nat, removed: nat, hunkTenths: nat)
    requires n > 0
    requires added == (match risk case Low => 108 case Medium => 132 case High => 168)
    requires removed == (match risk case Low => 81 case Medium => 99 case High => 126)
    requires hunkTenths == (match risk case Low => 36 case Medium => 44 case High => 56)
    ensures LimitsOf(BudgetFromFiles(n, risk), n, added, removed, hunkTenths)
  {
    assert NearestTo(RoundTenths(InTenths(n * 4, risk)), hunkTenths * n);
  }

  /** The whole budget, by the number of tasks and of the files they name: per file 108, 132 or 168 lines added, 81, 99
      or 126 removed, and 3.6, 4.4 or 5.6 hunks, of which there are at least three. */
  lemma BudgetExactly(tasks: seq<PlanTask>, isTest: string -> bool, digest: string -> string,
                      le: (string, string) -> bool)
    ensures var budget, k := BundleFromPlan(tasks, isTest, digest, le).budget, |tasks|;
            var n := if TaskFiles(tasks) == {} then 1 else |TaskFiles(tasks)|;
            if k < 3 then LimitsOf(budget, n, 108, 81, 36)
            else if k < 8 then LimitsOf(budget, n, 132, 99, 44)
            else LimitsOf(budget, n, 168, 126, 56)
  {
    AllowedFilesAre(tasks, le);
    BundleParts(tasks, isTest, digest, le);
    var n := if TaskFiles(tasks) == {} then 1 else |TaskFiles(tasks)|;
    assert n == Max(|TaskFiles(tasks)|, 1);
    if |tasks| < 3 {
      LimitsAre(n, Low, 108, 81, 36);
    } else if |tasks| < 8 {
      LimitsAre(n, Medium, 132, 99, 44);
    } else {
      LimitsAre(n, High, 168, 126, 56);
    }
  }

  ghost predicate Listed(list: seq<string>, le: (string, string) -> bool) {
    forall i, j | 0 <= i < j < |list| :: le(list[i], list[j]) && list[i] != list[j]
  }

  lemma UniqueSortedListed(values: seq<string>, le: (string, string) -> bool)
    requires TotalPreorder(le)
    ensures Listed(UniqueSorted(values, le), le)
  {
    UniqueSortedSpec(values, le);
    SortSorts(Filter(Dedup(values), NonEmpty()), le);
  }

  lemma ChecksAre(files: seq<string>, x: string, le: (string, string) -> bool)
    ensures x in UniqueSorted(BoundaryChecks(files, le), le) <==>
            x == "same-inputs-produce-same-change-scope-artifact" || x == "no-mutation-authority-escalation" ||
            x == if files == [] then "proposal-only-no-write-authority" else "writes-must-stay-inside-allowedFiles"
  {
    UniqueSortedSpec(BoundaryChecks(files, le), le);
    UniqueSortedSpec(["same-inputs-produce-same-change-scope-artifact", "no-mutation-authority-escalation",
                      if files != [] then "writes-must-stay-inside-allowedFiles"
                      else "proposal-only-no-write-authority"],
                     le);
  }

  /** Every list of the bundle is sorted, each value once. */
  lemma BundleIsSorted(tasks: seq<PlanTask>, isTest: string -> bool, digest: string -> string,
                       le: (string, string) -> bool)
    requires TotalPreorder(le)
    ensures var b := BundleFromPlan(tasks, isTest, digest, le);
            Listed(b.allowedFiles, le) && Listed(b.rulesTouched, le) && Listed(b.docsSurfaces, le) &&
            Listed(b.expectedTests, le) && Listed(b.boundaryChecks, le) && Listed(b.provenanceRefs, le)
  {
    var files := AllowedFiles(tasks, le);
    UniqueSortedListed(UniqueSorted(Files(tasks), le), le);
    UniqueSortedListed(UniqueSorted(Rules(tasks), le), le);
    UniqueSortedListed(Filter(files, StartsWith("docs/")), le);
    UniqueSortedListed(ExpectedTests(files, isTest, le), le);
    UniqueSortedListed(BoundaryChecks(files, le), le);
    UniqueSortedListed([".playbook/plan.json", "command:plan"], le);
  }

  lemma NamedParts(tasks: seq<PlanTask>, isTest: string -> bool, digest: string -> string,
                   le: (string, string) -> bool)
    ensures var b := BundleFromPlan(tasks, isTest, digest, le);
            b.allowedFiles == AllowedFiles(tasks, le) &&
            b.boundaryChecks == UniqueSorted(BoundaryChecks(b.allowedFiles, le), le) &&
            b.provenanceRefs == UniqueSorted([".playbook/plan.json", "command:plan"], le)
  {
  }

  /** The boundary checks and the origins that the bundle names. */
  lemma BundleNames(tasks: seq<PlanTask>, x: string, isTest: string -> bool, digest: string -> string,
                    le: (string, string) -> bool)
    ensures var b := BundleFromPlan(tasks, isTest, digest, le);
            (x in b.provenanceRefs <==> x == ".playbook/plan.json" || x == "command:plan") &&
            (x in b.boundaryChecks <==>
               x == "same-inputs-produce-same-change-scope-artifact" || x == "no-mutation-authority-escalation" ||
               x == if b.allowedFiles == [] then "proposal-only-no-write-authority"
                    else "writes-must-stay-inside-allowedFiles")
  {
    NamedParts(tasks, isTest, digest, le);
    OriginsAre(x, le);
    ChecksAre(AllowedFiles(tasks, le), x, le);
  }

  lemma OriginsAre(x: string, le: (string, string) -> bool)
    ensures x in UniqueSorted([".playbook/plan.json", "command:plan"], le) <==>
            x == ".playbook/plan.json" || x == "command:plan"
  {
    UniqueSortedSpec([".playbook/plan.json", "command:plan"], le);
  }

  /** Parts joined with a bar between each two. */
  lemma {:induction false} JoinBarExactly(a: seq<string>, x: string)
    ensures JoinBar(a + [x]) == if a == [] then x else JoinBar(a) + "|" + x
  {
    if a != [] {
      JoinBarExactly(a[1..], x);
      assert (a + [x])[1..] == a[1..] + [x];
      if |a| > 1 { JoinMore(a[0], JoinBar(a[1..]), x); }
    }
  }

  lemma JoinMore(first: string, rest: string, x: string)
    ensures first + "|" + (rest + "|" + x) == first + "|" + rest + "|" + x
  {
  }

  lemma RiskNameOfPlan(taskCount: nat)
    ensures RiskName(RiskOfPlan(taskCount)) ==
            if taskCount < 3 then "low" else if taskCount < 8 then "medium" else "high"
  {
  }

  lemma IdentifierPart(tasks: seq<PlanTask>, isTest: string -> bool, digest: string -> string,
                       le: (string, string) -> bool)
    ensures var b := BundleFromPlan(tasks, isTest, digest, le);
            b.scopeId == "scope-" + digest(JoinBar(["plan", ".playbook/plan.json"] + b.allowedFiles + b.rulesTouched +
              [RiskName(RiskOfPlan(|tasks|))] + b.boundaryChecks))
  {
  }

  /** The identifier of a bundle is made from its own files, rules, risk and checks. */
  lemma BundleIdentifier(tasks: seq<PlanTask>, isTest: string -> bool, digest: string -> string,
                         le: (string, string) -> bool)
    ensures var b := BundleFromPlan(tasks, isTest, digest, le);
            b.scopeId == "scope-" + digest(JoinBar(["plan", ".playbook/plan.json"] + b.allowedFiles + b.rulesTouched +
              [if |tasks| < 3 then "low" else if |tasks| < 8 then "medium" else "high"] + b.boundaryChecks))
  {
    IdentifierPart(tasks, isTest, digest, le);
    RiskNameOfPlan(|tasks|);
  }

  /** Which tests a bundle without a test file expects: those of the command line if it touches a command, else those of
      the engine if it touches the engine, else none. */
  lemma FallbackTests(tasks: seq<PlanTask>, isTest: string -> bool, digest: string -> string,
                      le: (string, string) -> bool)
    ensures var b := BundleFromPlan(tasks, isTest, digest, le);
            (forall f | f in b.allowedFiles :: !isTest(f)) ==>
              b.expectedTests ==
              if exists f | f in b.allowedFiles :: "packages/cli/src/commands/" <= f then
                ["pnpm --filter @fawxzzy/playbook-cli test"]
              else if exists f | f in b.allowedFiles :: "packages/engine/src/" <= f then
                ["pnpm --filter @zachariahredfield/playbook-engine test"]
              else []
  {
    var b := BundleFromPlan(tasks, isTest, digest, le);
    if forall f | f in b.allowedFiles :: !isTest(f) {
      NothingKept(b.allowedFiles, isTest);
      SomewhereExactly(b.allowedFiles, "packages/cli/src/commands/");
      SomewhereExactly(b.allowedFiles, "packages/engine/src/");
      OneExpected("pnpm --filter @fawxzzy/playbook-cli test", le);
      OneExpected("pnpm --filter @zachariahredfield/playbook-engine test", le);
      NothingExpected(le);
    }
  }

  lemma NothingKept(files: seq<string>, keep: string -> bool)
    requires forall f | f in files :: !keep(f)
    ensures Filter(files, keep) == []
  {
    if Filter(files, keep) != [] { assert Filter(files, keep)[0] in Filter(files, keep); }
  }

  lemma SomewhereExactly(files: seq<string>, prefix: string)
    ensures Anywhere(files, prefix) <==> exists f | f in files :: prefix <= f
  {
    if f :| f in files && prefix <= f {
      var i :| 0 <= i < |files| && files[i] == f;
    }
    if i :| 0 <= i < |files| && prefix <= files[i] { assert files[i] in files; }
  }

  lemma OneExpected(x: string, le: (string, string) -> bool)
    requires x != ""
    ensures UniqueSorted([x], le) == [x]
  {
    UniqueSortedSpec([x], le);
    OnlyMember(UniqueSorted([x], le), x);
  }

  lemma NothingExpected(le: (string, string) -> bool)
    ensures UniqueSorted([], le) == []
  {
    assert Filter(Dedup<string>([]), NonEmpty()) == [];
  }

  lemma TwiceUnique(s: seq<string>, x: string, le: (string, string) -> bool)
    ensures x in UniqueSorted(UniqueSorted(s, le), le) <==> x in s && x != ""
  {
    UniqueSortedSpec(s, le);
    UniqueSortedSpec(UniqueSorted(s, le), le);
  }

  lemma DocsOf(files: seq<string>, x: string, le: (string, string) -> bool)
    ensures x in UniqueSorted(Filter(files, StartsWith("docs/")), le) <==> x in files && "docs/" <= x
  {
    UniqueSortedSpec(Filter(files, StartsWith("docs/")), le);
  }

  lemma TestsOf(files: seq<string>, x: string, isTest: string -> bool, le: (string, string) -> bool)
    requires "" !in files && exists f | f in files :: isTest(f)
    ensures x in UniqueSorted(ExpectedTests(files, isTest, le), le) <==> x in files && isTest(x)
  {
    var tests := Filter(files, isTest);
    var f :| f in files && isTest(f);
    assert f in tests;
    TwiceUnique(tests, x, le);
  }

  /** Whatever file or rule a list of the bundle names, the plan names; and it names all it should. */
  lemma BundleContents(tasks: seq<PlanTask>, x: string, isTest: string -> bool, digest: string -> string,
                       le: (string, string) -> bool)
    ensures var bundle := BundleFromPlan(tasks, isTest, digest, le);
            (x in bundle.allowedFiles <==> TouchedBy(tasks, x)) &&
            (x in bundle.rulesTouched <==> NamedBy(tasks, x)) &&
            (x in bundle.docsSurfaces <==> TouchedBy(tasks, x) && "docs/" <= x) &&
            ((exists f | f in bundle.allowedFiles :: isTest(f)) ==>
               (x in bundle.expectedTests <==> TouchedBy(tasks, x) && isTest(x))) &&
            (bundle.riskLevel == High <==> |tasks| >= 8) && (bundle.riskLevel == Low <==> |tasks| < 3)
  {
    var bundle, files := BundleFromPlan(tasks, isTest, digest, le), AllowedFiles(tasks, le);
    BundleParts(tasks, isTest, digest, le);
    PartsContents(tasks, x, le);
    DocsOf(files, x, le);
    AllowedNonEmpty(tasks, le);
    if exists f | f in files :: isTest(f) { TestsOf(files, x, isTest, le); }
  }

  lemma AllowedNonEmpty(tasks: seq<PlanTask>, le: (string, string) -> bool)
    ensures "" !in AllowedFiles(tasks, le)
  {
    UniqueSortedSpec(UniqueSorted(Files(tasks), le), le);
  }

  lemma PartsContents(tasks: seq<PlanTask>, x: string, le: (string, string) -> bool)
    ensures x in AllowedFiles(tasks, le) <==> TouchedBy(tasks, x)
    ensures x in UniqueSorted(UniqueSorted(Rules(tasks), le), le) <==> NamedBy(tasks, x)
  {
    TwiceUnique(Files(tasks), x, le);
    TwiceUnique(Rules(tasks), x, le);
    FilesSpec(tasks, x);
    RulesSpec(tasks, x);
  }

  predicate NoRiskier(low: RiskLevel, high: RiskLevel) {
    low == Low || high == High || low == high
  }

  /** No limit of a is above that of b. */
  predicate Within(a: Budget, b: Budget) {
    a.maxFiles <= b.maxFiles && a.maxHunks <= b.maxHunks && a.maxAddedLines <= b.maxAddedLines &&
    a.maxRemovedLines <= b.maxRemovedLines
  }

  lemma ScaledMonotone(m: nat, n: nat, unit: nat, low: RiskLevel, high: RiskLevel)
    requires m <= n && NoRiskier(low, high)
    ensures RoundTenths(Scaled(m, unit, low)) <= RoundTenths(Scaled(n, unit, high))
  {
    ProductMonotone(m, n, unit);
    InTenthsMonotone(m * unit, n * unit, low, high);
  }

  lemma ProductMonotone(m: nat, n: nat, unit: nat)
    requires m <= n
    ensures m * unit <= n * unit
  {
    assert n * unit == m * unit + (n - m) * unit;
  }

  lemma InTenthsMonotone(a: nat, b: nat, low: RiskLevel, high: RiskLevel)
    requires a <= b && NoRiskier(low, high)
    ensures RoundTenths(InTenths(a, low)) <= RoundTenths(InTenths(b, high))
  {
    assert InTenths(a, low) <= InTenths(b, high);
  }

  lemma BudgetMonotone(m: nat, n: nat, low: RiskLevel, high: RiskLevel)
    requires m <= n && NoRiskier(low, high)
    ensures Within(BudgetFromFiles(m, low), BudgetFromFiles(n, high))
  {
    ScaledMonotone(Max(m, 1), Max(n, 1), 4, low, high);
    ScaledMonotone(Max(m, 1), Max(n, 1), 120, low, high);
    ScaledMonotone(Max(m, 1), Max(n, 1), 90, low, high);
  }

  lemma MoreTasksMoreRisk(m: nat, n: nat)
    requires m <= n
    ensures NoRiskier(RiskOfPlan(m), RiskOfPlan(n))
  {
  }

  lemma BudgetGrows(a: seq<PlanTask>, b: seq<PlanTask>, le: (string, string) -> bool)
    requires multiset(a) <= multiset(b)
    ensures |AllowedFiles(a, le)| <= |AllowedFiles(b, le)| && |a| <= |b|
    ensures forall file | file in AllowedFiles(a, le) :: file in AllowedFiles(b, le)
  {
    SubPlan(a, b);
    AllowedFilesAre(a, le);
    AllowedFilesAre(b, le);
    SubsetCardinality(TaskFiles(a), TaskFiles(b));
  }

  /** Adding tasks, anywhere in the plan, lowers none of the four limits and forgets no file or rule. */
  lemma MoreTasksMoreBudget(a: seq<PlanTask>, b: seq<PlanTask>, isTest: string -> bool, digest: string -> string,
                            le: (string, string) -> bool)
    requires multiset(a) <= multiset(b)
    ensures var x, y := BundleFromPlan(a, isTest, digest, le), BundleFromPlan(b, isTest, digest, le);
            Within(x.budget, y.budget) &&
            (forall file | file in x.allowedFiles :: file in y.allowedFiles) &&
            (forall rule | rule in x.rulesTouched :: rule in y.rulesTouched)
  {
    BudgetGrows(a, b, le);
    MoreTasksMoreRisk(|a|, |b|);
    BudgetMonotone(|AllowedFiles(a, le)|, |AllowedFiles(b, le)|, RiskOfPlan(|a|), RiskOfPlan(|b|));
    SubPlan(a, b);
    RulesKept(a, b, le);
    BundleParts(a, isTest, digest, le);
    BundleParts(b, isTest, digest, le);
  }

  lemma RulesKept(a: seq<PlanTask>, b: seq<PlanTask>, le: (string, string) -> bool)
    requires forall x :: x in Rules(a) ==> x in Rules(b)
    ensures forall x | x in UniqueSorted(UniqueSorted(Rules(a), le), le) ::
              x in UniqueSorted(UniqueSorted(Rules(b), le), le)
  {
    UniqueSortedSpec(Rules(a), le);
    UniqueSortedSpec(Rules(b), le);
    UniqueSortedSpec(UniqueSorted(Rules(a), le), le);
    UniqueSortedSpec(UniqueSorted(Rules(b), le), le);
  }
}
