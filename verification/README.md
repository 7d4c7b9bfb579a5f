# Verified model of the Playbook engines

Playbook keeps repositories in order: it checks governance rules on changed files, keeps a managed block in the
architecture document, stores reusable patterns with a lifecycle, turns a failing test log into a bounded repair,
plans work in parallel lanes and derives a patch budget from a plan. This project models the parts of it that carry
state, rewrite text or compute, and proves what they promise.

`dafny verify dfyconfig.toml` verifies everything.

| File | Part of the program |
|---|---|
| `Text.dfy`, `Sorting.dfy` | trimming, decimal numerals, stable sort, `new Set` followed by `sort` |
| `Glob.dfy`, `GlobUnits.dfy`, `GlobExact.dfy`, `GlobReading.dfy` | the glob compiler: four string replacements, then a regular expression that is parsed and matched; which patterns it is right on, and what it makes of the others |
| `NotesRule.dfy` | the rule loop of `verify`, which uses that matcher |
| `ManagedBlock.dfy` | the marked region that `analyze` rewrites |
| `PlanDecoder.dfy` | the decoder of `apply --from-plan`: UTF-8 or UTF-16, with or without a byte-order mark |
| `Promotion.dfy`, `PromotionRuns.dfy`, `PatternRecords.dfy` | the pattern store: one command, whole runs, and what runs keep inside a record |
| `FailureBlocks.dfy`, `BlockOrigins.dfy`, `Triage.dfy`, `FixPlan.dfy`, `Autofix.dfy` | from a failure log to blocks, findings, tasks and a gated repair |
| `RepeatPolicy.dfy`, `RunReports.dfy`, `ConfidenceGate.dfy`, `DryRunExamples.dfy` | what the repeat policy decides over runs, what a run reports and records, what the confidence score is and lets through, and two logs that show it |
| `Orchestrator.dfy`, `GivenContracts.dfy`, `LaneOrder.dfy`, `LaneOwnership.dfy` | lanes, path ownership and dependency waves; what is accepted, in terms of the contract as given; what that promises about order and ownership |
| `ChangeScope.dfy` | the change-scope bundle of a plan and its patch budget |

Code that the program writes as loops over variables is a method here, proved equal to a function of its inputs
(`UnmetRules`, `InferUtf16WithoutBom`, `Swap16`, `BlockParser`, `CollectOwners`, `BuildTestFixPlanArtifact`,
`RunVerificationPlan` and others); what the program promises is then proved about that function.

## What is taken as given

`localeCompare` is a parameter `le`: any total preorder, since it may call different strings equal. Results that say an
output is canonical need it to tell different strings apart, and say so. The line patterns of the block parser, the
failure classifier, the block summary, the failure signature and SHA-256 are parameters too. The only things assumed of
them are that a line which opens a block, names a test or signals a failure is not blank, that the classifier never
answers `stale_assertion` (no branch of it does), and, for task ids, that the digest prefix has ten characters.
`wave` values are real numbers. The 0.6 of the decoder, the budget multipliers and the terms of the confidence score are
exact fractions. Rounding the score and the threshold to two decimals is a parameter, assumed only to keep hundredths and
never to turn the order round.

## What was found

- The glob matcher is right on every file name exactly for patterns without `?` and without one of the texts
  `::DS::`, `::DS:**`, `::DS**`. The last two become a placeholder together with the one that `**` is replaced by. A
  colon on its own is harmless. For every other pattern the matcher throws, or disagrees with the glob on some file name;
  a `?` makes the character before it optional instead of standing for one character.
  `**` stands for text within one line, because `.` does not match a line terminator.
- A supersede whose successor is itself superseded keeps that successor's status and logs a move to `active` all the
  same. Over a run with increasing timestamps every audit log stays a connected path of statuses exactly if no supersede
  does that. Following `superseded_by` ends everywhere, throughout a run, exactly if no successor's own chain leads to the
  pattern it supersedes. Two supersedes that name each other break both.
- A failure block takes the workspace named by the line that closes it, because the workspace is read before the block is
  pushed. If that line names another workspace, the failure is filed under, and rerun for, the wrong package.
- Lane ids need not be distinct, and the wave check looks only at the last lane of each id. Every accepted choice of
  dependencies is acyclic exactly if of the lanes with one id none has a later wave than the last; otherwise a cycle is
  accepted. The overlap check asks only the first lane of each id. Every accepted choice of shared paths gives exclusive
  ownership exactly if no lane but the first of its id has a path in common with another; otherwise a plan is accepted in
  which a lane owns a path of another lane without sharing it.
- A UTF-8 plan in which U+0000 alternates with other characters is decoded as UTF-16.
- A dry run that nothing stops is recorded as `blocked`, and both the repeat policy and the confidence score count it.
  On a log that nothing stops at first, after dry runs from an empty history, apply is attempted exactly if there was
  none and the first score reaches the threshold, or there was one, the log has a single failure signature and a single
  repair class, and the score less a tenth reaches it. With one dry run counted the score is at most 0.65, so at the
  default threshold of 0.7 a single dry run on any log costs the repair.
- At the default threshold, as long as no run that met a signature of the log helped, apply needs a log without a counted
  failure and findings of the three preferred kinds alone. A fixture drift, though it is planned as a low-risk task, is
  then never repaired.
- A run that an unclear history leaves to review exits with success, even if its plan has executable tasks.
- The status `passed` of a triage artifact cannot occur.

## Model

| member | source | states |
|---|---|---|
| Sorting.SortStable | packages/engine/src/testTriage.ts:503-509 | sorting keeps the order of elements that the comparison does not tell apart |
| Text.TrimExactly | packages/engine/src/promotion.ts:511 | trimming takes white space from both ends, all that there is |
| Glob.OneLineMeansAnyText | packages/core/src/index.ts:328-331 | on a file name without line terminators, reading `**` as a run within a line is the same as reading it as any run |
| GlobUnits.CompileIsReread | packages/core/src/index.ts:329 | the four string replacements, with their escapes, act on the pattern as: spell out the placeholder of every `**`, then read placeholders back |
| GlobUnits.ParsePlain | packages/core/src/index.ts:329-330 | what is emitted without `?` parses, and to one term per character or wildcard |
| GlobUnits.UnitsMean | packages/core/src/index.ts:328-331 | backtracking acceptance of those terms is the one-pass meaning of the glob |
| GlobExact.RereadExact | packages/core/src/index.ts:329 | if no text of the pattern is misread, every placeholder is read back as the `**` it came from and nothing else is |
| GlobExact.SafeGlobExact | packages/core/src/index.ts:328-331 | a safe pattern never throws and matches a file exactly if the glob means it, for every file name |
| GlobExact.UnsafeGlobWrong | packages/core/src/index.ts:328-331 | for every unsafe pattern there is a file name on which the matcher throws or disagrees with the glob |
| GlobExact.GlobExactIff | packages/core/src/index.ts:328-331 | the matcher agrees with the glob on all file names if and only if the pattern is safe |
| GlobReading.MatcherExactly | packages/core/src/index.ts:328-331 | on any pattern: the matcher throws exactly if, with placeholders read back, some `?` has nothing to mark; otherwise it accepts what the characters, the characters made optional by a `?` and the wildcards read, for every file name |
| GlobReading.UnmisreadExactly | packages/core/src/index.ts:328-331 | the same on the pattern itself, where no text of it is misread |
| NotesRule.MatchesAnyExact | packages/core/src/index.ts:333 | with safe patterns, a file matches a list exactly if one of its globs means it |
| NotesRule.UnmetRules | packages/core/src/index.ts:443-455 | the rule loop returns the failures of the rules in order with the triggering files, and an error exactly where a pattern throws |
| NotesRule.SafeRulesExact | packages/core/src/index.ts:443-455 | a rule with safe patterns is unmet exactly if a changed file is watched and no changed file is one of its notes |
| NotesRule.SafeCheckExact | packages/core/src/index.ts:443-455 | over all rules: nothing throws, exactly the unmet rules are reported, each once and in order, each with exactly the changed files its watched globs mean |
| ManagedBlock.RewriteReplacesRegions | packages/core/src/index.ts:405-408 | rewriting puts the block in the place of every region and joins it with the untouched text between them |
| ManagedBlock.PiecesAndRegions | packages/core/src/index.ts:407-408 | the text between the regions and the regions in turn are the whole document |
| ManagedBlock.RegionsAreMarked | packages/core/src/index.ts:407 | every region starts with the marker line |
| ManagedBlock.RegionExactly | packages/core/src/index.ts:407 | a region is a marker line with the suggestion lines after it, all there are: each with its line feed, the last one without if the document or the line ends there otherwise |
| ManagedBlock.NoMarkerOutside | packages/core/src/index.ts:407-408 | no marker line is left in the text between the regions |
| ManagedBlock.OutsideKept | packages/core/src/index.ts:405-408 | a rewritten document has the same text outside its regions as before, piece by piece, and no further region |
| ManagedBlock.OnlyRegionsChange | packages/core/src/index.ts:399-410 | what one analysis leaves, including the guard on the marker |
| ManagedBlock.RegionsExactly | packages/core/src/index.ts:399-410 | after an analysis that detects something there are as many regions as before, each the marker line with the line of every detector that fired |
| ManagedBlock.NothingDetected | packages/core/src/index.ts:399-410 | an analysis that detects nothing leaves the document alone |
| ManagedBlock.LastWriteWins | packages/core/src/index.ts:399-410 | if the second analysis detects something, analysing with any first detection and then with it leaves what the second alone leaves, for every document |
| ManagedBlock.Idempotent | packages/core/src/index.ts:399-410 | analysing twice changes nothing more |
| PlanDecoder.InferUtf16WithoutBom | packages/cli-wrapper/runtime/commands/apply.js:15-38 | the counting loop decides by the numbers of zero bytes at even and odd positions |
| PlanDecoder.InferredExactly | packages/cli-wrapper/runtime/commands/apply.js:15-38 | bytes count as UTF-16 exactly if there are four or more of them, evenly many, one side of the pairs has no zero, and the other has at least two and at least 0.6 of the number of pairs, rounded down |
| PlanDecoder.Swap16 | packages/cli-wrapper/runtime/commands/apply.js:46-49 | swapping in place exchanges the bytes of every pair, and throws exactly on an odd length, leaving the buffer alone |
| PlanDecoder.DecodePlanPayload | packages/cli-wrapper/runtime/commands/apply.js:39-61 | the decoder with its in-place swap equals the decoding function, error included, and leaves the caller's buffer as it was |
| PlanDecoder.SwapChangesOrder | packages/cli-wrapper/runtime/commands/apply.js:46-49 | swapping turns big-endian text into little-endian text and back |
| PlanDecoder.MarkedUtf16 | packages/cli-wrapper/runtime/commands/apply.js:43-50 | with a mark, in either order, a text comes back exactly if it does not start with U+FEFF itself |
| PlanDecoder.UnmarkedUtf16 | packages/cli-wrapper/runtime/commands/apply.js:15-59 | without a mark, in either order, a text comes back flagged exactly if it has two or more units, none with a zero low byte, at least two and at least 0.6 of their number, rounded down, below U+0100, and its bytes do not start with a mark |
| PlanDecoder.MarkedUtf8 | packages/cli-wrapper/runtime/commands/apply.js:39-42 | with a mark every Unicode text comes back, unflagged |
| PlanDecoder.UnmarkedUtf8 | packages/cli-wrapper/runtime/commands/apply.js:51-60 | without a mark a Unicode text comes back exactly if it does not start with U+FEFF and the counts of its zero bytes do not make it UTF-16, and then unflagged; otherwise the text is another |
| PlanDecoder.MistakenText | packages/cli-wrapper/runtime/commands/apply.js:51-59 | a text taken for UTF-16 is always lost |
| PlanDecoder.TextWithoutNul | packages/cli-wrapper/runtime/commands/apply.js:51-60 | a text without U+0000 and without a leading U+FEFF always comes back unflagged |
| PlanDecoder.NulsLookLikeUtf16 | packages/cli-wrapper/runtime/commands/apply.js:15-38 | a UTF-8 text with U+0000 that is decoded as another text |
| PlanDecoder.OddLittleEndian | packages/cli-wrapper/runtime/commands/apply.js:43-45 | after the little-endian mark an odd last byte is dropped |
| PlanDecoder.OddBigEndian | packages/cli-wrapper/runtime/commands/apply.js:46-50 | after the big-endian mark it is an error |
| PlanDecoder.WellFormedTaken | packages/cli-wrapper/runtime/commands/apply.js:39-60 | where the encoding of a scalar value starts, reading UTF-8 gives that value and takes its bytes |
| PlanDecoder.IllFormedTaken | packages/cli-wrapper/runtime/commands/apply.js:39-60 | where none starts, it gives U+FFFD and takes the longest start of an encoding, or one byte |
| Promotion.ReadIsIdentity | packages/engine/src/promotion.ts:165-194 | normalising and re-sorting a well-formed store on read changes nothing |
| PatternRecords.ReadExactly | packages/engine/src/promotion.ts:165-194 | reading any store sorts its records by id, and the lists in each, and loses nothing |
| PatternRecords.StepReads | packages/engine/src/promotion.ts:165-562 | a command on any store with distinct ids answers, and leaves, what it does on what is read from it; a failed one leaves the store alone |
| Promotion.PutSpec | packages/engine/src/promotion.ts:451-461 | filter, append and sort replace one record of the store seen as a map and keep it well formed |
| Promotion.PutBothSpec | packages/engine/src/promotion.ts:544-547 | replacing two records in place and sorting updates both keys of the map and keeps the store well formed |
| Promotion.StepRefinesMap | packages/engine/src/promotion.ts:402-562 | one command on the sorted list is the same decision on a plain map: same records afterwards, same outcome, store well formed; what it decides is stated by the three rows on `PatternRecords` after it |
| PatternRecords.UnknownExactly | packages/engine/src/promotion.ts:402-496 | on an unknown id promote writes an active record with one event, and every other command fails and leaves the store alone |
| PatternRecords.StatusCommandExactly | packages/engine/src/promotion.ts:503-561 | retire, demote and recall of a known id write nothing exactly if it has that status; otherwise it gets the status, its stamps and one event more |
| PatternRecords.SupersedeExactly | packages/engine/src/promotion.ts:510-548 | supersede of a known id: when each of its three errors is given, when nothing is written, and otherwise what both records become |
| PromotionRuns.RunInvariant | packages/engine/src/promotion.ts:402-562 | after every run from the empty store: ids unique and sorted, every successor another existing record that lists the superseded one, every listed id present |
| PromotionRuns.NothingIsLost | packages/engine/src/promotion.ts:402-562 | between any two points of a run no record disappears or changes content or fingerprint |
| PromotionRuns.RepeatIsNoop | packages/engine/src/promotion.ts:505-561 | any command made twice, at any times, leaves what it left the first time and the second writes nothing |
| PromotionRuns.PromoteNeverReactivates | packages/engine/src/promotion.ts:265-269 | promoting a known id leaves the store alone, whatever its status, and is a conflict exactly if the candidate changed |
| PromotionRuns.OnlyNamedChange | packages/engine/src/promotion.ts:505-561 | a command leaves every record but the named one alone, and for supersede the successor |
| PromotionRuns.SupersedeKeepsChainsIff | packages/engine/src/promotion.ts:510-548 | where all chains end, they all end after a supersede exactly if the successor's chain does not lead to the superseded pattern |
| PromotionRuns.ChainsEndIffGuarded | packages/engine/src/promotion.ts:510-548 | the same over whole runs, command by command |
| PromotionRuns.LiveSuccessorIsGuarded | packages/engine/src/promotion.ts:538-542 | a successor that is not superseded always meets that condition |
| PromotionRuns.AppendLater | packages/engine/src/promotion.ts:486-489 | re-sorting a log with a later event puts it at the end, whatever it says |
| PromotionRuns.StepKeepsLogsIff | packages/engine/src/promotion.ts:525-558 | one later command extends the logs, and keeps all of them connected exactly if a superseding pattern is not superseded itself |
| PromotionRuns.LogsConnectedIff | packages/engine/src/promotion.ts:525-558 | over a run with increasing timestamps every log is a path from nothing through active to the present status exactly if every successor was live |
| PromotionRuns.LogsOnlyGrow | packages/engine/src/promotion.ts:153-157 | over a run with increasing timestamps an earlier log is a prefix of every later one, despite the sorting |
| PromotionRuns.CycleWithoutGuards | packages/engine/src/promotion.ts:510-548 | two supersedes that name each other meet neither guard and leave a chain without end, for any two ids |
| PromotionRuns.CycleBreaksLogs | packages/engine/src/promotion.ts:538-542 | they also leave a log that is not connected |
| PromotionRuns.CycleExists | packages/engine/src/promotion.ts:510-548 | the same for two concrete ids |
| PatternRecords.RunIsDocumented | packages/engine/src/promotion.ts:504-559 | after every run each retirement, demotion and recall stamp is that of an event in the log, and the status agrees with the stamps |
| PatternRecords.RunIsSorted | packages/engine/src/promotion.ts:153-157 | after every run the records are sorted by id and the events of each by time, operation, status and reason |
| FailureBlocks.BlockParser.PushCurrent | packages/engine/src/testTriage.ts:318-337 | closing a block records it with its attributes and clears everything but the workspace |
| FailureBlocks.BlockParser.Feed | packages/engine/src/testTriage.ts:339-388 | one line moves the eight variables as the machine's step says |
| FailureBlocks.SplitLinesExactly | packages/engine/src/testTriage.ts:307 | the lines of a log are the one way to cut it at its line ends, a line feed with or without a carriage return before it |
| FailureBlocks.ParseFailureBlocks | packages/engine/src/testTriage.ts:306-393 | the loop over the lines yields the blocks of the machine, or the whole log as one block |
| FailureBlocks.BlocksAreSpans | packages/engine/src/testTriage.ts:306-391 | emitted blocks are contiguous runs of non-blank lines, disjoint and in order, with the file, position and suite of their first line; a line is in one, or starts one, exactly by a rule on the lines read so far |
| FailureBlocks.EverySignalOnce | packages/engine/src/testTriage.ts:339-384 | every recursive, annotation or suite line opens its own block; every signal line is in exactly one, unless it is taken as a test-name header with no block open |
| BlockOrigins.BlockOrigins | packages/engine/src/testTriage.ts:318-389 | every block has the first test name given since the block before it ended, and the workspace last named up to and including its closing line |
| BlockOrigins.OwnWorkspaceIff | packages/engine/src/testTriage.ts:339-346 | a block keeps the workspace of its own lines exactly if the line that closes it names no other |
| BlockOrigins.NextWorkspaceStolen | packages/engine/src/testTriage.ts:339-367 | of two suite lines that name their workspaces, the first gets the workspace of the second |
| FailureBlocks.NoBlocksIffBlank | packages/engine/src/testTriage.ts:390-392 | a log gives no block exactly if it is blank |
| FailureBlocks.FallbackExactly | packages/engine/src/testTriage.ts:390-392 | the blocks of a log are those the machine finds; without any, a log that is not blank is one block without attributes, of its non-empty lines |
| Triage.SummarizeFailures | packages/engine/src/testTriage.ts:407-419 | counting in a map and sorting gives the first entry of the ranking |
| Triage.PrimaryIsMaximal | packages/engine/src/testTriage.ts:407-419 | the primary class occurs at least as often as any kind, and comes first by name among those as frequent |
| Triage.BuildTestTriageArtifact | packages/engine/src/testTriage.ts:475-559 | the artifact of a log: sorted findings, layer, eligibility, rerun commands |
| Triage.FindingsComeFromBlocks | packages/engine/src/testTriage.ts:475-509 | the findings are those of the blocks, each as often, in another order |
| Triage.FindingExactly | packages/engine/src/testTriage.ts:477-502 | what a finding says of its block, cleared for planning exactly for the four low-risk kinds |
| Triage.FindingsAreSorted | packages/engine/src/testTriage.ts:503-509 | the findings are sorted by package, file and test name |
| Triage.StatusExactly | packages/engine/src/testTriage.ts:534 | the status is failed exactly for a log that is not blank, unknown otherwise, never passed |
| Triage.EligibleExactly | packages/engine/src/testTriage.ts:421-435 | remediation is eligible exactly if the log is not blank and no finding has an infrastructure or governance kind |
| Triage.LayerExactly | packages/engine/src/testTriage.ts:421-435 | layer and eligibility: infrastructure before governance before product, each with its own eligibility, unknown for a blank log |
| Triage.AlwaysACommand | packages/engine/src/testTriage.ts:285-293 | every finding has a verification command and none of them is empty |
| Triage.CommandsExactly | packages/engine/src/testTriage.ts:285-293 | which commands verify a finding: by its workspace and file, by its kind, and always one for the repository |
| Triage.RerunNeverEmpty | packages/engine/src/testTriage.ts:517 | the rerun list is not empty once there is a finding |
| Triage.RerunExactly | packages/engine/src/testTriage.ts:517 | the rerun list holds exactly the commands of the findings, each once and sorted |
| FixPlan.BuildTestFixPlanArtifact | packages/engine/src/testFixPlan.ts:103-164 | the loop that pushes tasks and exclusions, then sorts both, builds the plan of the findings |
| FixPlan.PlanPartitions | packages/engine/src/testFixPlan.ts:103-184 | every finding index is in exactly one task or exclusion, with its data, and in a task exactly if it is cleared for planning, of one of the four low-risk kinds and has a file; counts add up |
| FixPlan.TaskExactly | packages/engine/src/testFixPlan.ts:20-98 | a task has the task kind and rule for its failure kind, its file, the verification commands sorted, and an id made from the finding and its position |
| FixPlan.ExclusionExactly | packages/engine/src/testFixPlan.ts:67-146 | an exclusion has the first reason that applies: not cleared, no repair for the kind, no file |
| FixPlan.PlanIsSorted | packages/engine/src/testFixPlan.ts:150-164 | tasks are sorted by file, rule and id, exclusions by file, reason and summary |
| FixPlan.TaskIdsDistinct | packages/engine/src/testFixPlan.ts:62-65 | task ids are pairwise different even if digests collide |
| FixPlan.PlanFromLog | packages/engine/src/testTriage.ts:41-502 | in a plan made from a log nothing is excluded as unsupported, and every task repairs a low-risk kind in a file that a line of the log names |
| Autofix.RunVerificationPlan | packages/cli-wrapper/runtime/commands/testAutofix.js:86-107 | the loop stops after the first failure and summarises what ran |
| Autofix.ExecutedIsPrefix | packages/cli-wrapper/runtime/commands/testAutofix.js:86-96 | what ran is a prefix of the plan, the shortest that ends at a failure |
| Autofix.VerificationOkExactly | packages/cli-wrapper/runtime/commands/testAutofix.js:97-106 | verification is ok exactly if there are commands and each exits with status zero |
| Autofix.VerificationCounts | packages/cli-wrapper/runtime/commands/testAutofix.js:97-106 | verification counts as attempted exactly if there are commands; passed and failed add up to what ran, and at most one command failed |
| Autofix.ComputeAutofixConfidence | packages/engine/src/testAutofix/remediationHistory.ts:242-288 | the score summed up term by term, rounded and clamped is the score as a function of the evidence, zero for a blocked repair |
| Autofix.DecideAndApply | packages/cli-wrapper/runtime/commands/testAutofix.js:314-477 | the branches after planning give the report of a run, none where apply throws |
| Autofix.RunTestAutofix | packages/cli-wrapper/runtime/commands/testAutofix.js:291-491 | one command from log to report; the history gains exactly one entry, or none where the command throws |
| Autofix.FixedExactly | packages/cli-wrapper/runtime/commands/testAutofix.js:408-449 | a run ends fixed exactly if apply was attempted and ok, every rerun command of the triage passed, and every finding became a task |
| RunReports.FinalStatusExactly | packages/cli-wrapper/runtime/commands/testAutofix.js:310-449 | the final status of a run, all six cases: fixed, partially fixed, not fixed, blocked by the score, left to review, blocked |
| RunReports.BlockedStopExactly | packages/cli-wrapper/runtime/commands/testAutofix.js:159-190 | a run is blocked before anything is mutated exactly without findings, or, unless all findings are for review, with a repair that failed twice or with no task and no unclear case |
| RunReports.ExitCodeExactly | packages/cli-wrapper/runtime/commands/testAutofix.js:86-96 | the exit code of a verification command, also if it gave none or did not start |
| RunReports.ReportExactly | packages/cli-wrapper/runtime/commands/testAutofix.js:310-477 | every field of the report of a run: whether apply would run and ran, the applied tasks, the commands that ran in order and with what result, and their counts |
| RunReports.RunIsRecorded | packages/cli-wrapper/runtime/commands/testAutofix.js:204-241 | a run that does not throw adds one entry with its number, what the report says, exactly the signatures of the findings and exactly the repair classes of the plan |
| Autofix.RunIdsDistinct | packages/engine/src/testAutofix/remediationHistory.ts:53 | run ids of different numbers differ, padding included |
| Autofix.RunIdFormat | packages/engine/src/testAutofix/remediationHistory.ts:53 | a run id is the fixed prefix and the number, with zeros in front only up to four digits |
| Autofix.HistoryIsNumbered | packages/engine/src/testAutofix/remediationHistory.ts:53-60 | over every sequence of runs the entries carry consecutive run ids |
| Autofix.PolicyBlocksExactly | packages/engine/src/testAutofix/remediationHistory.ts:143-195 | on a history the command wrote, the policy blocks exactly if two runs failed with a repair class of this plan on a signature of this log |
| Autofix.NoThirdAttempt | packages/engine/src/testAutofix/remediationHistory.ts:143-195 | over every sequence of runs, whatever logs, options and processes: once two runs failed with a repair class on a signature, no later run applies that class to it |
| RepeatPolicy.PolicyExactly | packages/engine/src/testAutofix/remediationHistory.ts:143-234 | on a history the command wrote, all five decisions in terms of which earlier runs met a signature of the log, failed twice or helped with a class of the plan, and whether the case is mixed |
| RepeatPolicy.GoesOnExactly | packages/cli-wrapper/runtime/commands/testAutofix.js:159-191 | nothing stops a run exactly if its plan has a task, no two runs failed as it would, and it is not a mixed case that earlier runs met without help |
| RepeatPolicy.ReviewStopExactly | packages/cli-wrapper/runtime/commands/testAutofix.js:159-191 | a run is left to review exactly if all findings are excluded for review or the history leaves a mixed case unclear |
| RepeatPolicy.AppliesExactly | packages/cli-wrapper/runtime/commands/testAutofix.js:310-408 | apply is attempted exactly if the run goes on in that sense, the mode is apply and the computed score reaches the rounded threshold |
| RepeatPolicy.ExitsWithSuccessExactly | packages/cli-wrapper/runtime/commands/testAutofix.js:192 | the exit code is success exactly for a fixed run, for findings that are all for review, and for a mixed case the history leaves unclear |
| RepeatPolicy.DryRunsExactly | packages/cli-wrapper/runtime/commands/testAutofix.js:348-380 | on a log that nothing stops at first, what stops a run after any number of dry runs on it; it gets as far as the confidence gate exactly after none, or after one if the log has one signature and one repair class |
| RepeatPolicy.DryRunsSpendTheBudget | packages/cli-wrapper/runtime/commands/testAutofix.js:348-380 | from any history the command wrote, two dry runs that nothing stopped stop the third run |
| ConfidenceGate.ConfidenceIsMonotone | packages/engine/src/testAutofix/remediationHistory.ts:250-288 | the score lies between 0 and 0.95; preferred kinds, an earlier success, fewer failures, fewer exclusions or a preferred repair class never lower it |
| ConfidenceGate.EvidenceExactly | packages/engine/src/testAutofix/remediationHistory.ts:152-193 | on a history the command wrote, the score counts an earlier success exactly if a run that met a signature of the log helped, and a failure exactly if one failed with a class of the plan on a signature of the log |
| ConfidenceGate.ConfidenceExactly | packages/engine/src/testAutofix/remediationHistory.ts:236-290 | on a history the command wrote, the score is zero for a repair that failed twice and otherwise the sum of its six terms, in terms of the findings and of what earlier runs did, rounded and kept between 0 and 0.95 |
| ConfidenceGate.GateExactly | packages/cli-wrapper/runtime/commands/testAutofix.js:310-408 | apply is attempted exactly in apply mode, with a task, without a repair that failed twice or an unclear case, and if that sum reaches the rounded threshold |
| ConfidenceGate.DefaultGateExactly | packages/engine/src/testAutofix/remediationHistory.ts:236-290 | at a threshold of at least 0.7, and without an earlier success, apply is attempted exactly in apply mode, with a task, without a counted failure or an unclear case, with preferred kinds alone, and if what the kinds and exclusions score reaches the threshold |
| ConfidenceGate.NoUntrustedRetry | packages/cli-wrapper/runtime/commands/testAutofix.js:310-408 | over every sequence of runs: at a threshold of at least 0.7 no run applies a repair class to a signature on which an earlier run failed with it, unless a run that met one of its signatures helped before |
| ConfidenceGate.RepairAfterDryRunsExactly | packages/cli-wrapper/runtime/commands/testAutofix.js:343-408 | on a log that nothing stops at first, after any number of dry runs, apply is attempted exactly after none with the first score, or after one with a tenth less if the log has one signature and one repair class, whenever that score reaches the threshold |
| ConfidenceGate.DryRunCostsRepair | packages/cli-wrapper/runtime/commands/testAutofix.js:343-408 | at a threshold of at least 0.7 apply is attempted exactly if there was no dry run and the first score reaches it |
| DryRunExamples.OneClassExample | packages/cli-wrapper/runtime/commands/testAutofix.js:343-408 | a log with one failing snapshot: apply is attempted up to a threshold of 0.75 at first, up to 0.65 after one dry run, never after two; at the default threshold one dry run costs it |
| DryRunExamples.TwoClassExample | packages/engine/src/testAutofix/remediationHistory.ts:216-224 | a log with a failing snapshot and an ordering drift: apply is attempted up to a threshold of 0.75 at first, and left to review after any dry run |
| Orchestrator.CollectOwners | packages/engine/src/orchestrator.ts:79-85 | the nested loops collect, for every path, the ids of the lanes that list it, with the paths in insertion order |
| Orchestrator.CheckPath | packages/engine/src/orchestrator.ts:87-102 | one path is rejected with the first offence |
| Orchestrator.AssertOverlapPolicy | packages/engine/src/orchestrator.ts:78-103 | the overlap check returns the first offence in insertion order |
| Orchestrator.OverlapVerdictSpec | packages/engine/src/orchestrator.ts:78-103 | it passes exactly if every path with two owners is shared globally and by each owner, and otherwise names the first offence in the order in which the lanes list their paths |
| Orchestrator.AssertDependencyWaves | packages/engine/src/orchestrator.ts:105-119 | the wave check returns the first offence |
| Orchestrator.WavesVerdictSpec | packages/engine/src/orchestrator.ts:105-119 | it passes exactly if every dependency is a lane of a smaller wave, and otherwise names the first offence, lane by lane |
| Orchestrator.BuildOrchestratorPlan | packages/engine/src/orchestrator.ts:121-140 | parse, check ownership, check waves, emit: the plan or the first error |
| GivenContracts.ParsedExactly | packages/engine/src/orchestrator.ts:40-76 | a parsed contract has the given lanes with their defaults, their lists each once and sorted, by id |
| GivenContracts.PlanExactly | packages/engine/src/orchestrator.ts:121-140 | a plan has the given goal, these lanes by wave and within a wave by id, and the modules each once and sorted |
| GivenContracts.AcceptedExactly | packages/engine/src/orchestrator.ts:40-140 | a contract gets a plan exactly if it is well formed, every path of two lanes is shared globally and by the first lane of each of their ids, and the last lane of every dependency is in a smaller wave |
| GivenContracts.RefusedExactly | packages/engine/src/orchestrator.ts:40-119 | which error a contract gets that is refused: four on its shape in their order, then the first path, then the first wave |
| GivenContracts.OverlapCheckExactly | packages/engine/src/orchestrator.ts:78-103 | whatever the lane ids, the overlap check passes exactly if every path of two lanes is shared globally and by the first lane of each of their ids |
| GivenContracts.OverlapCheckExact | packages/engine/src/orchestrator.ts:62-103 | with distinct lane ids it passes exactly if any path allowed to two lanes is shared globally and by both |
| LaneOwnership.ExclusiveExactly | packages/engine/src/orchestrator.ts:78-140 | in an emitted plan two lanes have a path in common only if both share it, exactly if every lane but the first of its id lists as shared what it has in common with another |
| LaneOwnership.OwnershipIsExclusive | packages/engine/src/orchestrator.ts:78-140 | in particular with distinct lane ids |
| LaneOwnership.ExclusiveForAllSharings | packages/engine/src/orchestrator.ts:78-140 | every accepted choice of shared paths for a contract gives exclusive ownership if and only if no lane but the first of its id has a path in common with another |
| LaneOwnership.DuplicateIdsShareSilently | packages/engine/src/orchestrator.ts:96-101 | a contract with a repeated lane id that gets a plan although its second lane owns a path of the first without sharing it |
| LaneOrder.LatestIsAcyclic | packages/engine/src/orchestrator.ts:105-119 | an accepted contract has no dependency path, however long, that returns to its start, if the last lane of each id has the latest wave |
| LaneOrder.AcceptedIsAcyclic | packages/engine/src/orchestrator.ts:105-119 | in particular with distinct lane ids |
| LaneOrder.AcyclicExactly | packages/engine/src/orchestrator.ts:105-140 | every accepted choice of dependencies for a contract is acyclic if and only if the last lane of each id has the latest wave |
| LaneOrder.DuplicateIdsAllowCycle | packages/engine/src/orchestrator.ts:105-140 | a contract with a repeated lane id that gets a plan although two of its ids depend on each other |
| LaneOrder.PlanIsTopological | packages/engine/src/orchestrator.ts:121-140 | the emitted lanes are the contract's, each dependency strictly earlier and in a strictly smaller wave; under that condition so are all lanes with its id |
| Orchestrator.ParseIsCanonical | packages/engine/src/orchestrator.ts:40-76 | permuting lanes, or permuting and repeating their paths, parses to the same contract or the same error |
| Orchestrator.PlanIsCanonical | packages/engine/src/orchestrator.ts:121-140 | and so to the identical plan or error |
| Orchestrator.ParseIsIdempotent | packages/engine/src/orchestrator.ts:40-76 | parsing a parsed contract changes nothing |
| ChangeScope.BundleIsCanonical | packages/engine/src/changeScope.ts:93-147 | permuting the tasks of a plan gives the identical bundle, its identifier included |
| ChangeScope.BudgetIsSufficient | packages/engine/src/changeScope.ts:62-72 | the file limit is the number of distinct task files, at least one, and the allowed files are exactly those |
| ChangeScope.BudgetExactly | packages/engine/src/changeScope.ts:54-72 | all four limits by the number of tasks and of task files: 108, 132 or 168 lines added per file, 81, 99 or 126 removed, and the integer nearest to 3.6, 4.4 or 5.6 hunks per file, at least three |
| ChangeScope.MoreTasksMoreBudget | packages/engine/src/changeScope.ts:54-147 | adding tasks anywhere lowers none of the four limits and drops no file or rule |
| ChangeScope.BundleContents | packages/engine/src/changeScope.ts:74-147 | a file or rule is in a list of the bundle exactly if the plan names it and it is of that list's kind; the risk follows the number of tasks |
| ChangeScope.BundleIsSorted | packages/engine/src/changeScope.ts:52-125 | every list of a bundle is sorted and has each value once |
| ChangeScope.FallbackTests | packages/engine/src/changeScope.ts:74-85 | the expected tests of a bundle without a test file |
| ChangeScope.BundleNames | packages/engine/src/changeScope.ts:88-146 | the boundary checks and origins a bundle names |
| ChangeScope.BundleIdentifier | packages/engine/src/changeScope.ts:60-107 | the identifier is the digest of the bundle's own files, rules, risk and checks |

## Left out

- SummarizeFailures: the summary sentence with its numbers of workspaces and suites is not modelled, only the primary class; the sentence decides nothing.
- BuildTestTriageArtifact: the summary, the cross-cutting diagnosis, the recommended checks, the repair plan texts and the descriptive fields of a finding are not modelled; no later step modelled here reads them, except that marker lines among the evidence go into the signature, which is a parameter that gets all lines of the block.
- BuildTestFixPlanArtifact: the order of the evidence lines and the detail and action texts of tasks and exclusions are not modelled; sorting and partitioning do not look at them.
- File reads and writes, JSON, git, child processes and console output: stores are values, and what a child process or
  the apply command did is an input. A run of the repair command that fails to read its log or write an artifact is not modelled.
- The regular expressions of the line patterns and of the failure classifier, whitespace normalisation of captured
  text, and SHA-256: parameters.
- Binary floating point in the confidence score: it could matter only where the exact score lies halfway between two
  hundredths, and there the model leaves open which way it is rounded. The texts that explain the score are not modelled.
- The history fields besides run id, mode, decision, signatures, repair classes, status, whether apply ran, threshold and score; merging of histories.
- The descriptive fields of a pattern record are one opaque `content`, and the candidate a pattern is promoted from is
  part of the command. A hand-written store with missing or ill-typed fields, or with the status `promoted`, is not read.
- Story promotion, pattern transfer packages and doctrine transforms: further writers of stores like the one modelled.
- The other three builders of change-scope bundles: they feed the same bundle function with other lists.
- Text in the glob matcher and the managed block is a sequence of Unicode scalar values rather than UTF-16 code units, so
  a name with an unpaired surrogate is not covered.
- The other findings of `verify` and `analyze`, and the cut of a failure's evidence to ten files.
- Writing the architecture document only if it changed: the model has the text, not the file.
- NaN as a wave, a contract given as a string, and lane fields that are not of the declared type.
- Rounding of binary floating point in the budget: no product is near a tie.
