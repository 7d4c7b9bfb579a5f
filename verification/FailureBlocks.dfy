/** The line machine that cuts a failure log into blocks. The line-matching regular expressions are parameters. */
module FailureBlocks {
  import opened Text

  datatype Annotation = Annotation(title: Option<string>, file: string, line: Option<nat>, column: Option<nat>)

  /** What each regular expression captures from a line, already normalised; None where it does not match. */
  datatype Patterns = Patterns(workspace: string -> Option<string>,
                               recursive: string -> Option<string>,
                               annotation: string -> Option<Annotation>,
                               suite: string -> Option<string>,
                               testName: string -> Option<string>,
                               signal: string -> bool)

  /** The only thing assumed of them: a line they match is not blank. */
  ghost predicate MatchesNonBlank(p: Patterns) {
    forall line :: (Opens(p, line) || p.testName(line).Some? || p.signal(line)) ==> !IsBlank(line)
  }

  datatype Block = Block(workspace: Option<string>, suite: Option<string>, testName: Option<string>,
                         file: Option<string>,
                         line: Option<nat>, column: Option<nat>, annotationTitle: Option<string>, lines: seq<string>)

  /** The lines of a log: cut at each line feed, with a carriage return before it dropped. */
  function SplitLines(log: string): (lines: seq<string>)
    ensures |lines| > 0
  {
    if log == "" then [""]
    else if log[0] == '\n' then [""] + SplitLines(log[1..])
    else if "\r\n" <= log then [""] + SplitLines(log[2..])
    else
      var rest := SplitLines(log[1..]);
      [[log[0]] + rest[0]] + rest[1..]
  }

  function NonEmptyLines(lines: seq<string>): seq<string> {
    if lines == [] then [] else (if lines[0] != "" then [lines[0]] else []) + NonEmptyLines(lines[1..])
  }

  // ----- The machine as a function of its state -----

  datatype Machine = Machine(current: Block, findings: seq<Block>)

  const NO_BLOCK := Block(None, None, None, None, None, None, None, [])

  /** The state after closing the open block: nothing happens without an open block; only the workspace survives a
      push. */
  function Pushed(m: Machine): Machine {
    if m.current.lines == [] then m
    else Machine(NO_BLOCK.(workspace := m.current.workspace), m.findings + [m.current])
  }

  predicate Opens(p: Patterns, line: string) {
    p.recursive(line).Some? || p.annotation(line).Some? || p.suite(line).Some?
  }

  /** No test name yet: absent or empty. */
  predicate Unnamed(name: Option<string>) { name == None || name == Some("") }

  function Appended(m: Machine, line: string): Machine {
    m.(current := m.current.(lines := m.current.lines + [line]))
  }

  function WithWorkspace(m: Machine, p: Patterns, line: string): Machine {
    if p.workspace(line).Some? then m.(current := m.current.(workspace := p.workspace(line))) else m
  }

  function StepLine(m0: Machine, p: Patterns, line: string): Machine {
    var m := WithWorkspace(m0, p, line);
    if p.recursive(line).Some? then
      var q := Pushed(m);
      q.(current := q.current.(workspace := p.recursive(line), lines := [line]))
    else if p.annotation(line).Some? then
      var a := p.annotation(line).value;
      var q := Pushed(m);
      q.(current := q.current.(file := Some(a.file), line := a.line, column := a.column, annotationTitle := a.title,
                               lines := [line]))
    else if p.suite(line).Some? then
      var q := Pushed(m);
      q.(current := q.current.(suite := p.suite(line),
                               file := if q.current.file.Some? then q.current.file else p.suite(line), lines := [line]))
    else if p.testName(line).Some? && Unnamed(m.current.testName) then
      var named := m.(current := m.current.(testName := p.testName(line)));
      if m.current.lines != [] then Appended(named, line) else named
    else if p.signal(line) then Appended(m, line)
    else if m.current.lines != [] then
      if IsBlank(line) then Pushed(m) else Appended(m, line)
    else m
  }

  function Fold(lines: seq<string>, p: Patterns): Machine {
    if lines == [] then Machine(NO_BLOCK, [])
    else StepLine(Fold(lines[..|lines| - 1], p), p, lines[|lines| - 1])
  }

  function Blocks(lines: seq<string>, p: Patterns): seq<Block> {
    Pushed(Fold(lines, p)).findings
  }

  /** With no block found, the non-empty lines of a log that is not blank are one block. */
  function ParsedBlocks(log: string, p: Patterns): seq<Block> {
    var found := Blocks(SplitLines(log), p);
    if found != [] then found
    else if Trim(log) == "" then []
    else [NO_BLOCK.(lines := NonEmptyLines(SplitLines(log)))]
  }

  // ----- The machine as the code runs it -----

  class BlockParser {
    const patterns: Patterns
    var findings: seq<Block>
    var currentWorkspace: Option<string>
    var currentSuite: Option<string>
    var currentTestName: Option<string>
    var currentFile: Option<string>
    var currentLine: Option<nat>
    var currentColumn: Option<nat>
    var currentAnnotationTitle: Option<string>
    var currentBlock: seq<string>

    ghost function State(): Machine
      reads this
    {
      Machine(Block(currentWorkspace, currentSuite, currentTestName, currentFile, currentLine, currentColumn,
                    currentAnnotationTitle, currentBlock), findings)
    }

    constructor (patterns: Patterns)
      ensures this.patterns == patterns && State() == Fold([], patterns)
    {
      this.patterns := patterns;
      findings := [];
      currentWorkspace, currentSuite, currentTestName, currentFile := None, None, None, None;
      currentLine, currentColumn, currentAnnotationTitle := None, None, None;
      currentBlock := [];
    }

    method PushCurrent()
      modifies this
      ensures State() == Pushed(old(State()))
    {
      if |currentBlock| == 0 { return; }
      findings := findings + [Block(currentWorkspace, currentSuite, currentTestName, currentFile, currentLine,
                                    currentColumn, currentAnnotationTitle, currentBlock)];
      currentSuite := None;
      currentTestName := None;
      currentFile := None;
      currentLine := None;
      currentColumn := None;
      currentAnnotationTitle := None;
      currentBlock := [];
    }

    method Feed(line: string)
      modifies this
      ensures State() == StepLine(old(State()), patterns, line)
    {
      var workspaceMatch := patterns.workspace(line);
      if workspaceMatch.Some? { currentWorkspace := workspaceMatch; }
      var recursiveMatch := patterns.recursive(line);
      if recursiveMatch.Some? {
        PushCurrent();
        currentWorkspace := recursiveMatch;
        currentBlock := [line];
        return;
      }
      var annotation := patterns.annotation(line);
      if annotation.Some? {
        PushCurrent();
        currentFile := Some(annotation.value.file);
        currentLine := annotation.value.line;
        currentColumn := annotation.value.column;
        currentAnnotationTitle := annotation.value.title;
        currentBlock := [line];
        return;
      }
      var suiteMatch := patterns.suite(line);
      if suiteMatch.Some? {
        PushCurrent();
        currentSuite := suiteMatch;
        if currentFile.None? { currentFile := currentSuite; }
        currentBlock := [line];
        return;
      }
      var testNameMatch := patterns.testName(line);
      if testNameMatch.Some? && Unnamed(currentTestName) {
        currentTestName := testNameMatch;
        if |currentBlock| > 0 { currentBlock := currentBlock + [line]; }
        return;
      }
      if patterns.signal(line) {
        currentBlock := if |currentBlock| == 0 then [line] else currentBlock + [line];
        return;
      }
      if |currentBlock| > 0 {
        if Trim(line) == "" { PushCurrent(); } else { currentBlock := currentBlock + [line]; }
        TrimEmpty(line);
      }
    }
  }

  method ParseFailureBlocks(rawLog: string, patterns: Patterns) returns (r: seq<Block>)
    ensures r == ParsedBlocks(rawLog, patterns)
  {
    var lines := SplitLines(rawLog);
    var parser := new BlockParser(patterns);
    for n := 0 to |lines|
      invariant parser.patterns == patterns
      invariant parser.State() == Fold(lines[..n], patterns)
    {
      parser.Feed(lines[n]);
      assert lines[..n + 1][..n] == lines[..n];
    }
    assert lines[..|lines|] == lines;
    parser.PushCurrent();
    if |parser.findings| > 0 { return parser.findings; }
    return if Trim(rawLog) == "" then [] else [NO_BLOCK.(lines := NonEmptyLines(lines))];
  }

  // ----- Where the blocks lie in the log -----

  datatype Span = Span(lo: nat, hi: nat)

  /** The spans of the closed blocks, and where the open one starts (the next line when none is open). */
  datatype Track = Track(closed: seq<Span>, open: nat)

  function Close(t: Track, n: nat): seq<Span> {
    if t.open < n then t.closed + [Span(t.open, n)] else t.closed
  }

  /** The test name given before line n and not used up: it is forgotten where a block ends, and the first one given
      stays. */
  ghost function Pending(lines: seq<string>, p: Patterns, n: int): Option<string>
    requires 0 <= n <= |lines|
    decreases n, 0
  {
    if n == 0 then None
    else
      var k := n - 1;
      var earlier := if k > 0 && InBlock(lines, p, k - 1) && (Opens(p, lines[k]) || IsBlank(lines[k])) then None
                     else Pending(lines, p, k);
      if !Opens(p, lines[k]) && p.testName(lines[k]).Some? && Unnamed(earlier) then p.testName(lines[k]) else earlier
  }

  /** Line n gives a test name, none is pending, and it opens no block. */
  ghost predicate HeaderAt(lines: seq<string>, p: Patterns, n: int)
    requires 0 <= n < |lines|
    decreases n, 1
  {
    !Opens(p, lines[n]) && p.testName(lines[n]).Some? && Unnamed(Pending(lines, p, n))
  }

  /** Line n is in a block: it opens one, or continues the block of the line before, or is a signal not taken as a
      header. */
  ghost predicate InBlock(lines: seq<string>, p: Patterns, n: int)
    requires 0 <= n < |lines|
    decreases n, 2
  {
    Opens(p, lines[n]) || (!IsBlank(lines[n]) && n > 0 && InBlock(lines, p, n - 1)) ||
    (p.signal(lines[n]) && !HeaderAt(lines, p, n))
  }

  ghost predicate StartsBlock(lines: seq<string>, p: Patterns, n: int)
    requires 0 <= n < |lines|
  {
    InBlock(lines, p, n) && (Opens(p, lines[n]) || n == 0 || !InBlock(lines, p, n - 1))
  }

  ghost function Tracked(lines: seq<string>, p: Patterns, n: nat): Track
    requires n <= |lines|
  {
    if n == 0 then Track([], 0)
    else
      var k := n - 1;
      var t, line := Tracked(lines, p, k), lines[k];
      if Opens(p, line) then Track(Close(t, k), k)
      else if t.open < k then
        if IsBlank(line) then Track(Close(t, k), n) else t
      else if p.signal(line) && !HeaderAt(lines, p, k) then Track(t.closed, k)
      else Track(t.closed, n)
  }

  ghost function Spans(lines: seq<string>, p: Patterns): seq<Span> {
    Close(Tracked(lines, p, |lines|), |lines|)
  }

  /** What the first line of a block says about where the failure is. */
  ghost predicate Attributed(b: Block, p: Patterns, first: string) {
    if p.recursive(first).Some? then
      b.suite == None && b.file == None && b.line == None && b.column == None && b.annotationTitle == None
    else if p.annotation(first).Some? then
      var a := p.annotation(first).value;
      b.suite == None && b.file == Some(a.file) && b.line == a.line && b.column == a.column &&
      b.annotationTitle == a.title
    else
      b.suite == p.suite(first) && b.file == p.suite(first) && b.line == None && b.column == None &&
      b.annotationTitle == None
  }

  ghost predicate Located(b: Block, p: Patterns, lines: seq<string>, s: Span) {
    s.lo < s.hi <= |lines| && b.lines == lines[s.lo..s.hi] && Attributed(b, p, lines[s.lo])
  }

  /** The closed spans locate the findings, and the open one holds the block being collected. */
  ghost predicate Fits(m: Machine, t: Track, lines: seq<string>, p: Patterns, n: nat)
    requires n <= |lines|
  {
    t.open <= n && m.current.lines == lines[t.open..n] &&
    (t.open < n ==> Attributed(m.current, p, lines[t.open])) &&
    (t.open == n ==> m.current == NO_BLOCK.(workspace := m.current.workspace, testName := m.current.testName)) &&
    AllLocated(m.findings, t.closed, lines, p)
  }

  ghost predicate AllLocated(findings: seq<Block>, closed: seq<Span>, lines: seq<string>, p: Patterns) {
    |findings| == |closed| && forall i | 0 <= i < |closed| :: Located(findings[i], p, lines, closed[i])
  }

  ghost predicate TrackInvariant(lines: seq<string>, p: Patterns, n: nat)
    requires n <= |lines|
  {
    Fits(Fold(lines[..n], p), Tracked(lines, p, n), lines, p, n)
  }

  /** The name the machine holds is the one the lines give. */
  ghost predicate NamePending(lines: seq<string>, p: Patterns, n: nat)
    requires n <= |lines|
  {
    Fold(lines[..n], p).current.testName == Pending(lines, p, n)
  }

  /** The findings stay located when the open block, if any, is closed after them. */
  lemma PushedLocated(m: Machine, t: Track, lines: seq<string>, p: Patterns, k: nat)
    requires k <= |lines| && Fits(m, t, lines, p, k)
    ensures AllLocated(Pushed(m).findings, Close(t, k), lines, p)
  {
    if t.open < k {
      assert Located(m.current, p, lines, Span(t.open, k));
    }
  }

  lemma WorkspaceFits(m: Machine, t: Track, lines: seq<string>, p: Patterns, k: nat, line: string)
    requires k <= |lines| && Fits(m, t, lines, p, k)
    ensures Fits(WithWorkspace(m, p, line), t, lines, p, k)
  {
  }

  /** A line that opens a block closes the open one and starts a block located by itself. */
  lemma OpenStep(m: Machine, p: Patterns, line: string)
    requires Opens(p, line)
    ensures var next := StepLine(m, p, line);
            next.findings == Pushed(WithWorkspace(m, p, line)).findings && next.current.lines == [line]
  {
  }

  lemma OpenedLocated(m: Machine, p: Patterns, line: string)
    requires Opens(p, line) &&
             (m.current.lines == [] ==>
                m.current == NO_BLOCK.(workspace := m.current.workspace, testName := m.current.testName))
    ensures Attributed(StepLine(m, p, line).current, p, line)
  {
  }

  lemma OpeningLine(lines: seq<string>, p: Patterns, k: nat)
    requires k < |lines| && TrackInvariant(lines, p, k) && Opens(p, lines[k])
    ensures TrackInvariant(lines, p, k + 1)
  {
    NextFold(lines, p, k);
    var m, t, line := Fold(lines[..k], p), Tracked(lines, p, k), lines[k];
    WorkspaceFits(m, t, lines, p, k, line);
    PushedLocated(WithWorkspace(m, p, line), t, lines, p, k);
    OpenStep(m, p, line);
    OpenedLocated(m, p, line);
    StartedFits(StepLine(m, p, line), Track(Close(t, k), k), lines, p, k);
  }

  /** A block just started with line k. */
  lemma StartedFits(m: Machine, t: Track, lines: seq<string>, p: Patterns, k: nat)
    requires k < |lines| && t.open == k && m.current.lines == [lines[k]] && Attributed(m.current, p, lines[k])
    requires AllLocated(m.findings, t.closed, lines, p)
    ensures Fits(m, t, lines, p, k + 1)
  {
    assert lines[k..k + 1] == [lines[k]];
  }

  /** With a block open, a line that opens none is appended, or closes the block if it is blank. */
  lemma BusyStep(m: Machine, p: Patterns, line: string)
    requires MatchesNonBlank(p) && !Opens(p, line) && m.current.lines != []
    ensures IsBlank(line) ==> StepLine(m, p, line) == Pushed(WithWorkspace(m, p, line))
    ensures !IsBlank(line) ==>
              var next := StepLine(m, p, line);
              next.findings == m.findings && next.current.lines == m.current.lines + [line] &&
              SamePlace(next.current, m.current)
  {
  }

  /** The attributes that the first line of a block gives. */
  ghost predicate SamePlace(a: Block, b: Block) {
    a.suite == b.suite && a.file == b.file && a.line == b.line && a.column == b.column &&
    a.annotationTitle == b.annotationTitle
  }

  lemma ContinuedBlock(lines: seq<string>, p: Patterns, k: nat)
    requires MatchesNonBlank(p) && k < |lines| && TrackInvariant(lines, p, k)
    requires !Opens(p, lines[k]) && Tracked(lines, p, k).open < k
    ensures TrackInvariant(lines, p, k + 1)
  {
    NextFold(lines, p, k);
    var m, t, line := Fold(lines[..k], p), Tracked(lines, p, k), lines[k];
    BusyStep(m, p, line);
    if IsBlank(line) {
      WorkspaceFits(m, t, lines, p, k, line);
      ClosedFits(WithWorkspace(m, p, line), t, lines, p, k);
    } else {
      GrownFits(m, StepLine(m, p, line), t, lines, p, k);
    }
  }

  lemma GrownFits(m: Machine, next: Machine, t: Track, lines: seq<string>, p: Patterns, k: nat)
    requires k < |lines| && Fits(m, t, lines, p, k) && t.open < k
    requires next.findings == m.findings && next.current.lines == m.current.lines + [lines[k]] &&
             SamePlace(next.current, m.current)
    ensures Fits(next, t, lines, p, k + 1)
  {
    assert lines[t.open..k + 1] == lines[t.open..k] + [lines[k]];
  }

  lemma ClosedFits(m: Machine, t: Track, lines: seq<string>, p: Patterns, k: nat)
    requires k < |lines| && Fits(m, t, lines, p, k) && t.open < k
    ensures Fits(Pushed(m), Track(Close(t, k), k + 1), lines, p, k + 1)
  {
    PushedLocated(m, t, lines, p, k);
    assert lines[k + 1..k + 1] == [];
  }

  lemma NoOpenBlock(lines: seq<string>, p: Patterns, k: nat)
    requires k < |lines| && TrackInvariant(lines, p, k)
    requires !Opens(p, lines[k]) && Tracked(lines, p, k).open == k && NamePending(lines, p, k)
    ensures TrackInvariant(lines, p, k + 1)
  {
    NextFold(lines, p, k);
    var m, t, line := Fold(lines[..k], p), Tracked(lines, p, k), lines[k];
    IdleStep(m, p, line);
    assert HeaderAt(lines, p, k) <==> p.testName(line).Some? && Unnamed(m.current.testName);
    if p.signal(line) && !HeaderAt(lines, p, k) {
      StartedFits(StepLine(m, p, line), Track(t.closed, k), lines, p, k);
    } else {
      assert lines[k + 1..k + 1] == [];
    }
  }

  /** With no block open, a line that opens none is swallowed as a header, or is a signal, or is passed over. */
  lemma IdleStep(m: Machine, p: Patterns, line: string)
    requires !Opens(p, line) && m.current == NO_BLOCK.(workspace := m.current.workspace, testName := m.current.testName)
    ensures var next := StepLine(m, p, line);
            next.findings == m.findings &&
            if p.signal(line) && !(p.testName(line).Some? && Unnamed(m.current.testName)) then
              next.current.lines == [line] && Attributed(next.current, p, line)
            else
              next.current == NO_BLOCK.(workspace := next.current.workspace, testName := next.current.testName)
  {
  }

  lemma NextFold(lines: seq<string>, p: Patterns, k: nat)
    requires k < |lines|
    ensures Fold(lines[..k + 1], p) == StepLine(Fold(lines[..k], p), p, lines[k])
  {
    assert lines[..k + 1][..k] == lines[..k];
  }

  // ----- Which lines are in a block -----

  ghost predicate Inside(s: Span, k: int) { s.lo <= k < s.hi }

  ghost predicate Covered(spans: seq<Span>, k: int) { exists i | 0 <= i < |spans| :: Inside(spans[i], k) }

  ghost predicate Begun(spans: seq<Span>, k: int) { exists i | 0 <= i < |spans| :: spans[i].lo == k }

  ghost predicate Ordered(spans: seq<Span>, n: nat) {
    (forall i | 0 <= i < |spans| :: spans[i].lo < spans[i].hi <= n) &&
    (forall i, j | 0 <= i < j < |spans| :: spans[i].hi <= spans[j].lo)
  }

  lemma CloseSpans(t: Track, n: nat)
    requires t.open <= n && Ordered(t.closed, t.open)
    ensures Ordered(Close(t, n), n)
    ensures forall k: int :: Covered(Close(t, n), k) <==> Covered(t.closed, k) || t.open <= k < n
    ensures forall k: int :: Begun(Close(t, n), k) <==> Begun(t.closed, k) || (t.open == k && k < n)
  {
    var c := Close(t, n);
    assert forall i | 0 <= i < |t.closed| :: c[i] == t.closed[i];
    if t.open < n { assert c[|t.closed|] == Span(t.open, n); }
    forall k: int ensures Covered(c, k) <==> Covered(t.closed, k) || t.open <= k < n {
      if Covered(t.closed, k) {
        var i :| 0 <= i < |t.closed| && Inside(t.closed[i], k);
        assert Inside(c[i], k);
      } else if t.open <= k < n {
        assert Inside(c[|t.closed|], k);
      }
    }
    forall k: int ensures Begun(c, k) <==> Begun(t.closed, k) || (t.open == k && k < n) {
      if Begun(t.closed, k) {
        var i :| 0 <= i < |t.closed| && t.closed[i].lo == k;
        assert c[i].lo == k;
      } else if t.open == k && k < n {
        assert c[|t.closed|].lo == k;
      }
    }
  }

  /** The spans cover line k exactly if it is in a block, begin at it exactly if it starts one, and no blank line is in
      a block. */
  ghost predicate SpanFits(lines: seq<string>, p: Patterns, spans: seq<Span>, k: int)
    requires 0 <= k < |lines|
  {
    (Covered(spans, k) <==> InBlock(lines, p, k)) && (Begun(spans, k) <==> StartsBlock(lines, p, k)) &&
    (InBlock(lines, p, k) ==> !IsBlank(lines[k]))
  }

  /** Up to line n: the spans are ordered, cover the lines in a block, and begin where a block starts. */
  ghost predicate SpansFit(lines: seq<string>, p: Patterns, n: nat)
    requires n <= |lines|
  {
    var t := Tracked(lines, p, n);
    t.open <= n && Ordered(t.closed, t.open) &&
    (n > 0 ==> (t.open < n <==> InBlock(lines, p, n - 1))) &&
    forall k | 0 <= k < n :: SpanFits(lines, p, Close(t, n), k)
  }

  /** How the spans grow by one line: a block closes before it or not, and the line is in the open block or not. */
  lemma NextSpans(lines: seq<string>, p: Patterns, k: nat)
    requires MatchesNonBlank(p) && k < |lines| && SpansFit(lines, p, k)
    ensures var before, t := Tracked(lines, p, k), Tracked(lines, p, k + 1);
            t.open <= k + 1 && (t.open < k + 1 <==> InBlock(lines, p, k)) &&
            (t.open < k + 1 && !StartsBlock(lines, p, k) ==> t == before && before.open < k) &&
            (t.open < k + 1 && StartsBlock(lines, p, k) ==> t.open == k && t.closed == Close(before, k)) &&
            (t.open == k + 1 ==> t.closed == Close(before, k))
    ensures InBlock(lines, p, k) ==> !IsBlank(lines[k])
  {
  }

  /** The same on spans alone. */
  lemma TrackGrowth(before: Track, t: Track, k: nat, inside: bool, starts: bool)
    requires before.open <= k && t.open <= k + 1 && Ordered(before.closed, before.open)
    requires t.open < k + 1 <==> inside
    requires inside && !starts ==> t == before && before.open < k
    requires inside && starts ==> t.open == k && t.closed == Close(before, k)
    requires !inside ==> t.closed == Close(before, k) && !starts
    ensures Ordered(t.closed, t.open)
    ensures forall j: int :: Covered(Close(t, k + 1), j) <==> Covered(Close(before, k), j) || (j == k && inside)
    ensures forall j: int :: Begun(Close(t, k + 1), j) <==> Begun(Close(before, k), j) || (j == k && starts)
  {
    CloseSpans(before, k);
    OrderedWithin(Close(before, k), k);
    assert Ordered(t.closed, t.open);
    CloseSpans(t, k + 1);
    if !inside {
      assert Close(t, k + 1) == Close(before, k);
    } else if starts {
      assert forall j: int :: Covered(t.closed, j) <==> Covered(Close(before, k), j);
    } else {
      assert forall j: int :: Covered(t.closed, j) <==> Covered(before.closed, j);
    }
  }

  lemma SpansStep(lines: seq<string>, p: Patterns, k: nat)
    requires MatchesNonBlank(p) && k < |lines| && SpansFit(lines, p, k)
    ensures SpansFit(lines, p, k + 1)
  {
    var before, t := Tracked(lines, p, k), Tracked(lines, p, k + 1);
    NextSpans(lines, p, k);
    TrackGrowth(before, t, k, InBlock(lines, p, k), StartsBlock(lines, p, k));
    CloseSpans(before, k);
    OrderedWithin(Close(before, k), k);
    var spans := Close(t, k + 1);
    forall j | 0 <= j < k + 1 ensures SpanFits(lines, p, spans, j) {
      if j < k {
        assert SpanFits(lines, p, Close(before, k), j);
      } else {
        assert !Covered(Close(before, k), k) && !Begun(Close(before, k), k);
      }
    }
  }

  lemma OrderedWithin(spans: seq<Span>, n: nat)
    requires Ordered(spans, n)
    ensures forall k: int | Covered(spans, k) :: k < n
    ensures forall k: int | Begun(spans, k) :: k < n
    ensures forall m: nat | n <= m :: Ordered(spans, m)
  {
  }

  lemma {:induction false} SpansUpTo(lines: seq<string>, p: Patterns, n: nat)
    requires MatchesNonBlank(p) && n <= |lines|
    ensures SpansFit(lines, p, n)
  {
    if n > 0 {
      SpansUpTo(lines, p, n - 1);
      SpansStep(lines, p, n - 1);
    }
  }

  /** What one line does to the name the machine holds. */
  lemma NameStep(m: Machine, p: Patterns, line: string)
    requires MatchesNonBlank(p)
    ensures StepLine(m, p, line).current.testName ==
            if Opens(p, line) then (if m.current.lines == [] then m.current.testName else None)
            else if IsBlank(line) then (if m.current.lines == [] then m.current.testName else None)
            else if p.testName(line).Some? && Unnamed(m.current.testName) then p.testName(line)
            else m.current.testName
  {
  }

  lemma NextPending(lines: seq<string>, p: Patterns, k: nat)
    requires MatchesNonBlank(p) && k < |lines|
    requires TrackInvariant(lines, p, k) && SpansFit(lines, p, k) && NamePending(lines, p, k)
    ensures NamePending(lines, p, k + 1)
  {
    NextFold(lines, p, k);
    NameStep(Fold(lines[..k], p), p, lines[k]);
    assert Fold(lines[..k], p).current.lines == [] <==> Tracked(lines, p, k).open == k;
  }

  lemma {:induction false} TrackHolds(lines: seq<string>, p: Patterns, n: nat)
    requires MatchesNonBlank(p) && n <= |lines|
    ensures TrackInvariant(lines, p, n) && NamePending(lines, p, n)
  {
    if n == 0 {
      assert lines[..0] == [];
    } else {
      var k := n - 1;
      TrackHolds(lines, p, k);
      SpansUpTo(lines, p, k);
      NextPending(lines, p, k);
      if Opens(p, lines[k]) {
        OpeningLine(lines, p, k);
      } else if Tracked(lines, p, k).open < k {
        ContinuedBlock(lines, p, k);
      } else {
        NoOpenBlock(lines, p, k);
      }
    }
  }

  /** Main result on the blocks the machine emits: each is a contiguous run of non-blank lines, located by its first
      line; they are disjoint and in log order; a line is in one exactly when InBlock says so, and starts one exactly
      when StartsBlock says so. */
  lemma BlocksAreSpans(lines: seq<string>, p: Patterns)
    requires MatchesNonBlank(p)
    ensures var blocks, spans := Blocks(lines, p), Spans(lines, p);
            |blocks| == |spans| && Ordered(spans, |lines|) &&
            (forall i | 0 <= i < |spans| :: Located(blocks[i], p, lines, spans[i])) &&
            (forall k | 0 <= k < |lines| :: SpanFits(lines, p, spans, k))
  {
    var n := |lines|;
    assert lines[..n] == lines;
    TrackHolds(lines, p, n);
    SpansUpTo(lines, p, n);
    CloseSpans(Tracked(lines, p, n), n);
  }

  /** No structural line is ever lost, and a signal line only as a header without an open block; none is in two
      blocks. */
  lemma EverySignalOnce(lines: seq<string>, p: Patterns, k: nat)
    requires MatchesNonBlank(p) && k < |lines|
    ensures Opens(p, lines[k]) ==> Begun(Spans(lines, p), k)
    ensures p.signal(lines[k]) ==>
              Covered(Spans(lines, p), k) || (HeaderAt(lines, p, k) && (k == 0 || !Covered(Spans(lines, p), k - 1)))
    ensures forall i, j | 0 <= i < |Spans(lines, p)| && 0 <= j < |Spans(lines, p)| &&
                          Inside(Spans(lines, p)[i], k) && Inside(Spans(lines, p)[j], k) :: i == j
  {
    BlocksAreSpans(lines, p);
    assert SpanFits(lines, p, Spans(lines, p), k);
    assert k > 0 ==> SpanFits(lines, p, Spans(lines, p), k - 1);
  }

  // ----- What the lines of a log are -----

  /** The log is these lines with line ends between them: no line holds a line feed, and a carriage return before a line
      feed belongs to the line end. */
  ghost predicate IsCutInto(log: string, lines: seq<string>) {
    lines != [] && lines[0] <= log && '\n' !in lines[0] &&
    var n := |lines[0]|;
    if |lines| == 1 then n == |log|
    else
      (n < |log| && log[n] == '\n' && (n == 0 || log[n - 1] != '\r') && IsCutInto(log[n + 1..], lines[1..])) ||
      (n + 1 < |log| && log[n] == '\r' && log[n + 1] == '\n' && IsCutInto(log[n + 2..], lines[1..]))
  }

  lemma CutLonger(c: char, log: string, lines: seq<string>)
    requires log != "" && log[0] == c && lines != [] && IsCutInto(log[1..], lines) && c != '\n'
    requires !("\r\n" <= log)
    ensures IsCutInto(log, [[c] + lines[0]] + lines[1..])
  {
    var n, more := |lines[0]|, [[c] + lines[0]] + lines[1..];
    assert log == [c] + log[1..];
    assert more[1..] == lines[1..];
    if |lines| > 1 {
      assert log[1..][n..] == log[n + 1..];
      assert n + 1 <= |log[1..]| ==> log[1..][n + 1..] == log[n + 2..];
      assert n + 2 <= |log[1..]| ==> log[1..][n + 2..] == log[n + 3..];
    }
  }

  lemma {:induction false} SplitLinesCut(log: string)
    ensures IsCutInto(log, SplitLines(log))
  {
    if log == "" {
    } else if log[0] == '\n' {
      SplitLinesCut(log[1..]);
      assert SplitLines(log)[1..] == SplitLines(log[1..]);
    } else if "\r\n" <= log {
      SplitLinesCut(log[2..]);
      assert SplitLines(log)[1..] == SplitLines(log[2..]);
    } else {
      SplitLinesCut(log[1..]);
      CutLonger(log[0], log, SplitLines(log[1..]));
    }
  }

  lemma FirstLineUnique(log: string, a: seq<string>, b: seq<string>)
    requires IsCutInto(log, a) && IsCutInto(log, b)
    ensures |a[0]| <= |b[0]|
  {
    forall i | 0 <= i < |a[0]| ensures log[i] != '\n' { assert log[i] == a[0][i]; }
  }

  lemma {:induction false} CutUnique(log: string, a: seq<string>, b: seq<string>)
    requires IsCutInto(log, a) && IsCutInto(log, b)
    ensures a == b
    decreases |a|
  {
    FirstLineUnique(log, a, b);
    FirstLineUnique(log, b, a);
    var n := |a[0]|;
    assert a[0] == log[..n] == b[0];
    if n < |log| {
      if log[n] == '\n' { CutUnique(log[n + 1..], a[1..], b[1..]); } else { CutUnique(log[n + 2..], a[1..], b[1..]); }
    }
    assert a == [a[0]] + a[1..] && b == [b[0]] + b[1..];
  }

  /** The lines of a log are what it is cut into, in the one way there is. */
  lemma SplitLinesExactly(log: string, lines: seq<string>)
    ensures lines == SplitLines(log) <==> IsCutInto(log, lines)
  {
    SplitLinesCut(log);
    if IsCutInto(log, lines) { CutUnique(log, lines, SplitLines(log)); }
  }

  /** The last line is kept exactly if it is not empty. */
  lemma {:induction false} LastNonEmpty(lines: seq<string>, line: string)
    ensures NonEmptyLines(lines + [line]) == NonEmptyLines(lines) + if line == "" then [] else [line]
  {
    if lines == [] {
      assert [] + [line] == [line] && [line][1..] == [];
    } else {
      LastNonEmpty(lines[1..], line);
      assert (lines + [line])[1..] == lines[1..] + [line];
    }
  }

  /** The blocks of a log are those the machine finds; without any, a log that is not blank is one block without
      attributes, of its non-empty lines. */
  lemma FallbackExactly(log: string, p: Patterns)
    ensures var found := Blocks(SplitLines(log), p);
            ParsedBlocks(log, p) ==
            if found != [] then found
            else if IsBlank(log) then []
            else [Block(None, None, None, None, None, None, None, NonEmptyLines(SplitLines(log)))]
  {
    TrimEmpty(log);
  }

  // ----- Blank logs -----

  ghost predicate AllBlank(lines: seq<string>) {
    forall i | 0 <= i < |lines| :: IsBlank(lines[i])
  }

  lemma {:induction false} SplitBlank(log: string)
    ensures IsBlank(log) <==> AllBlank(SplitLines(log))
  {
    if log == "" {
    } else if log[0] == '\n' {
      SplitBlank(log[1..]);
      BlankCons(log, 1);
      BlankLinesCons("", SplitLines(log[1..]));
    } else if "\r\n" <= log {
      SplitBlank(log[2..]);
      BlankCons(log, 2);
      BlankLinesCons("", SplitLines(log[2..]));
    } else {
      SplitBlank(log[1..]);
      BlankCons(log, 1);
      var rest := SplitLines(log[1..]);
      var first := [log[0]] + rest[0];
      BlankCons(first, 1);
      assert first[1..] == rest[0];
      BlankLinesCons(first, rest[1..]);
      BlankLinesCons(rest[0], rest[1..]);
      assert rest == [rest[0]] + rest[1..];
    }
  }

  lemma BlankCons(s: string, k: nat)
    requires k <= |s|
    ensures IsBlank(s) <==> IsBlank(s[..k]) && IsBlank(s[k..])
    ensures k > 0 && IsBlank(s[..k]) ==> IsSpace(s[0])
    ensures k == 1 ==> (IsBlank(s[..1]) <==> IsSpace(s[0]))
    ensures k == 2 ==> (IsBlank(s[..2]) <==> IsSpace(s[0]) && IsSpace(s[1]))
  {
    forall i | k <= i < |s| ensures s[i] == s[k..][i - k] { }
  }

  lemma BlankLinesCons(line: string, rest: seq<string>)
    ensures AllBlank([line] + rest) <==> IsBlank(line) && AllBlank(rest)
  {
    var lines := [line] + rest;
    assert lines[0] == line;
    forall i | 0 <= i < |rest| ensures lines[i + 1] == rest[i] { }
  }

  lemma {:induction false} NoBlockInBlank(lines: seq<string>, p: Patterns, n: nat)
    requires MatchesNonBlank(p) && n <= |lines| && AllBlank(lines)
    ensures Fold(lines[..n], p).current.lines == [] && Fold(lines[..n], p).findings == []
  {
    if n > 0 {
      NoBlockInBlank(lines, p, n - 1);
      assert lines[..n][..n - 1] == lines[..n - 1];
      assert IsBlank(lines[n - 1]);
    } else {
      assert lines[..0] == [];
    }
  }

  /** A log gives no block exactly when it is blank. */
  lemma NoBlocksIffBlank(log: string, p: Patterns)
    requires MatchesNonBlank(p)
    ensures ParsedBlocks(log, p) == [] <==> IsBlank(log)
  {
    TrimEmpty(log);
    SplitBlank(log);
    var lines := SplitLines(log);
    if IsBlank(log) {
      NoBlockInBlank(lines, p, |lines|);
      assert lines[..|lines|] == lines;
    }
  }
}
