/** The rule loop of `verify`: a change to watched files requires a change to one of the notes files. */
module NotesRule {
  import opened Text
  import opened Glob
  import opened GlobExact

  datatype Rule = Rule(whenChanged: seq<string>, mustTouch: seq<string>)
  /** The position of an unmet rule and the files that triggered it. */
  datatype Failure = Failure(rule: nat, triggers: seq<string>)
  /** The RegExp constructor threw on a pattern. */
  datatype Error = InvalidPattern

  /** Whether a file matches one of the patterns, tried in order up to the first match; None where a pattern tried
      throws. */
  function MatchesAny(file: string, patterns: seq<string>): Option<bool> {
    if patterns == [] then Some(false)
    else match MatchesGlob(file, patterns[0])
      case None => None
      case Some(true) => Some(true)
      case Some(false) => MatchesAny(file, patterns[1..])
  }

  function Triggers(files: seq<string>, patterns: seq<string>): Option<seq<string>> {
    if files == [] then Some([])
    else
      var first, rest := MatchesAny(files[0], patterns), Triggers(files[1..], patterns);
      if first.None? || rest.None? then None else Some((if first.value then [files[0]] else []) + rest.value)
  }

  function SomeMatch(files: seq<string>, patterns: seq<string>): Option<bool> {
    if files == [] then Some(false)
    else match MatchesAny(files[0], patterns)
      case None => None
      case Some(true) => Some(true)
      case Some(false) => SomeMatch(files[1..], patterns)
  }

  /** Whether a rule is unmet, and the files that triggered it; None where checking it throws. */
  function Unmet(rule: Rule, files: seq<string>): Option<bool> {
    match Triggers(files, rule.whenChanged)
    case None => None
    case Some(triggers) =>
      if triggers == [] then Some(false)
      else match SomeMatch(files, rule.mustTouch)
        case None => None
        case Some(touched) => Some(!touched)
  }

  /** The failures of the rules in order; None where one of them throws. */
  function FailuresOf(rules: seq<Rule>, files: seq<string>): Option<seq<Failure>> {
    if rules == [] then Some([])
    else
      var n := |rules| - 1;
      match FailuresOf(rules[..n], files)
      case None => None
      case Some(earlier) =>
        match Unmet(rules[n], files)
        case None => None
        case Some(unmet) =>
          if unmet then Some(earlier + [Failure(n, Triggers(files, rules[n].whenChanged).GetOr([]))]) else Some(earlier)
  }

  method UnmetRules(rules: seq<Rule>, changedFiles: seq<string>) returns (r: Result<seq<Failure>, Error>)
    ensures r == match FailuresOf(rules, changedFiles)
                 case None => Err(InvalidPattern)
                 case Some(failures) => Ok(failures)
  {
    var failures: seq<Failure> := [];
    for n := 0 to |rules|
      invariant FailuresOf(rules[..n], changedFiles) == Some(failures)
    {
      var rule := rules[n];
      assert rules[..n + 1][..n] == rules[..n];
      var triggers := Triggers(changedFiles, rule.whenChanged);
      if triggers.None? {
        ThrowsOn(rules, n + 1, changedFiles);
        return Err(InvalidPattern);
      }
      if |triggers.value| == 0 { continue; }
      var touchedRequired := SomeMatch(changedFiles, rule.mustTouch);
      if touchedRequired.None? {
        ThrowsOn(rules, n + 1, changedFiles);
        return Err(InvalidPattern);
      }
      if !touchedRequired.value {
        failures := failures + [Failure(n, triggers.value)];
      }
    }
    assert rules[..|rules|] == rules;
    return Ok(failures);
  }

  lemma {:induction false} ThrowsOn(rules: seq<Rule>, n: nat, files: seq<string>)
    requires n <= |rules| && FailuresOf(rules[..n], files) == None
    ensures FailuresOf(rules, files) == None
    decreases |rules|
  {
    if n < |rules| {
      assert rules[..|rules| - 1][..n] == rules[..n];
      ThrowsOn(rules[..|rules| - 1], n, files);
    } else {
      assert rules[..n] == rules;
    }
  }

  ghost predicate Reported(failures: seq<Failure>, n: int) { exists i | 0 <= i < |failures| :: failures[i].rule == n }

  // ----- With safe patterns the rules say what their globs mean -----

  ghost predicate AllSafe(patterns: seq<string>) { forall i | 0 <= i < |patterns| :: Safe(patterns[i]) }

  ghost predicate MeansAny(patterns: seq<string>, file: string) {
    exists i | 0 <= i < |patterns| :: Means(patterns[i], file)
  }

  ghost predicate SomeFile(files: seq<string>, patterns: seq<string>) {
    exists i | 0 <= i < |files| :: MeansAny(patterns, files[i])
  }

  lemma {:induction false} MatchesAnyExact(file: string, patterns: seq<string>)
    requires AllSafe(patterns)
    ensures MatchesAny(file, patterns).Some? && (MatchesAny(file, patterns).value <==> MeansAny(patterns, file))
  {
    if patterns != [] {
      SafeGlobExact(patterns[0], file);
      var rest := patterns[1..];
      assert forall i | 0 <= i < |rest| :: rest[i] == patterns[i + 1];
      MatchesAnyExact(file, rest);
      if i :| 0 <= i < |patterns| && Means(patterns[i], file) {
        assert i > 0 ==> Means(rest[i - 1], file);
      }
      if j :| 0 <= j < |rest| && Means(rest[j], file) { assert Means(patterns[j + 1], file); }
    }
  }

  /** The files that one of the globs means, in their order. */
  ghost function Meant(files: seq<string>, patterns: seq<string>): seq<string> {
    if files == [] then []
    else if MeansAny(patterns, files[0]) then [files[0]] + Meant(files[1..], patterns)
    else Meant(files[1..], patterns)
  }

  lemma {:induction false} TriggersExact(files: seq<string>, patterns: seq<string>)
    requires AllSafe(patterns)
    ensures Triggers(files, patterns).Some?
    ensures Triggers(files, patterns).value == Meant(files, patterns)
    ensures forall file :: file in Triggers(files, patterns).value <==> file in files && MeansAny(patterns, file)
    ensures SomeMatch(files, patterns).Some? && (SomeMatch(files, patterns).value <==> SomeFile(files, patterns))
  {
    if files != [] {
      MatchesAnyExact(files[0], patterns);
      var rest := files[1..];
      TriggersExact(rest, patterns);
      assert files == [files[0]] + rest;
      if i :| 0 <= i < |files| && MeansAny(patterns, files[i]) {
        assert i > 0 ==> MeansAny(patterns, rest[i - 1]);
      }
      if j :| 0 <= j < |rest| && MeansAny(patterns, rest[j]) { assert MeansAny(patterns, files[j + 1]); }
    }
  }

  /** With safe patterns nothing throws, and a rule is unmet exactly when a changed file is watched by it and no changed
      file is one of its notes. */
  lemma SafeRulesExact(rule: Rule, files: seq<string>)
    requires AllSafe(rule.whenChanged) && AllSafe(rule.mustTouch)
    ensures Unmet(rule, files) == Some(SomeFile(files, rule.whenChanged) && !SomeFile(files, rule.mustTouch))
  {
    TriggersExact(files, rule.whenChanged);
    TriggersExact(files, rule.mustTouch);
    var triggers := Triggers(files, rule.whenChanged).value;
    if SomeFile(files, rule.whenChanged) {
      var i :| 0 <= i < |files| && MeansAny(rule.whenChanged, files[i]);
      assert files[i] in triggers;
    }
    if triggers != [] {
      assert triggers[0] in triggers;
      var i :| 0 <= i < |files| && files[i] == triggers[0];
    }
  }

  /** Whether rule n is unmet, in terms of what its globs mean. */
  ghost predicate MeantUnmet(rule: Rule, files: seq<string>) {
    SomeFile(files, rule.whenChanged) && !SomeFile(files, rule.mustTouch)
  }

  /** The failures are those of the unmet rules, each once and in order, with the watched changed files. */
  ghost predicate ReportsExactly(failures: seq<Failure>, rules: seq<Rule>, files: seq<string>) {
    (forall n | 0 <= n < |rules| :: Reported(failures, n) <==> MeantUnmet(rules[n], files)) &&
    (forall i | 0 <= i < |failures| ::
       failures[i].rule < |rules| && failures[i].triggers == Meant(files, rules[failures[i].rule].whenChanged)) &&
    (forall i, j | 0 <= i < j < |failures| :: failures[i].rule < failures[j].rule)
  }

  /** The governance check as a whole: with safe patterns it never throws and reports exactly the rules whose watched
      globs mean a changed file while none of their notes globs does, each once and in order and with exactly the files
      that its watched globs mean. */
  lemma {:induction false} SafeCheckExact(rules: seq<Rule>, files: seq<string>)
    requires forall n | 0 <= n < |rules| :: AllSafe(rules[n].whenChanged) && AllSafe(rules[n].mustTouch)
    ensures FailuresOf(rules, files).Some? && ReportsExactly(FailuresOf(rules, files).value, rules, files)
  {
    if rules != [] {
      var n := |rules| - 1;
      SafeCheckExact(rules[..n], files);
      SafeRulesExact(rules[n], files);
      TriggersExact(files, rules[n].whenChanged);
      var earlier, all := FailuresOf(rules[..n], files).value, FailuresOf(rules, files).value;
      ReportNext(rules, files, n, earlier, all);
    }
  }

  lemma ReportNext(rules: seq<Rule>, files: seq<string>, n: nat, earlier: seq<Failure>, all: seq<Failure>)
    requires |rules| == n + 1 && ReportsExactly(earlier, rules[..n], files)
    requires if MeantUnmet(rules[n], files) then all == earlier + [Failure(n, Meant(files, rules[n].whenChanged))]
             else all == earlier
    ensures ReportsExactly(all, rules, files)
  {
    assert forall i | 0 <= i < |earlier| :: all[i] == earlier[i];
    forall k | 0 <= k < |rules| ensures Reported(all, k) <==> MeantUnmet(rules[k], files) {
      ReportedExtended(earlier, all, k, n);
      if k < n { assert rules[..n][k] == rules[k]; }
    }
  }

  lemma ReportedExtended(earlier: seq<Failure>, all: seq<Failure>, k: int, n: nat)
    requires earlier <= all && |all| <= |earlier| + 1
    requires forall i | 0 <= i < |earlier| :: earlier[i].rule < n
    requires |all| > |earlier| ==> all[|earlier|].rule == n
    ensures Reported(all, k) <==> Reported(earlier, k) || (k == n && |all| > |earlier|)
  {
    if i :| 0 <= i < |earlier| && earlier[i].rule == k { assert all[i].rule == k; }
    if i :| 0 <= i < |all| && all[i].rule == k { assert i < |earlier| ==> earlier[i].rule == k; }
  }
}
