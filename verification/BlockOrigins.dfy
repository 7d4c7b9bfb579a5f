/** Which lines of the log a block takes its test name and its workspace from. */
module BlockOrigins {
  import opened Text
  import opened FailureBlocks

  /** The workspace last named in the first n lines. */
  ghost function Workspace(lines: seq<string>, p: Patterns, n: nat): Option<string>
    requires n <= |lines|
  {
    if n == 0 then None
    else if p.recursive(lines[n - 1]).Some? then p.recursive(lines[n - 1])
    else if p.workspace(lines[n - 1]).Some? then p.workspace(lines[n - 1])
    else Workspace(lines, p, n - 1)
  }

  /** The workspace of a block: the line that closes it is looked at first. */
  ghost function WorkspaceAtClose(lines: seq<string>, p: Patterns, hi: nat): Option<string>
    requires hi <= |lines|
  {
    if hi < |lines| && p.workspace(lines[hi]).Some? then p.workspace(lines[hi]) else Workspace(lines, p, hi)
  }

  /** The first test name given between two lines by a line that opens no block. */
  ghost function TestName(lines: seq<string>, p: Patterns, lo: nat, hi: nat): Option<string>
    requires hi <= |lines|
    decreases hi
  {
    if hi <= lo then None
    else
      var line, earlier := lines[hi - 1], TestName(lines, p, lo, hi - 1);
      if !Opens(p, line) && p.testName(line).Some? && Unnamed(earlier) then p.testName(line) else earlier
  }

  /** Where the block before span i ends. */
  ghost function PreviousEnd(spans: seq<Span>, i: nat): nat
    requires i <= |spans|
  {
    if i == 0 then 0 else spans[i - 1].hi
  }

  ghost predicate OriginOf(b: Block, lines: seq<string>, p: Patterns, lo: nat, hi: nat) {
    hi <= |lines| && b.workspace == WorkspaceAtClose(lines, p, hi) && b.testName == TestName(lines, p, lo, hi)
  }

  ghost predicate OriginsOf(findings: seq<Block>, spans: seq<Span>, lines: seq<string>, p: Patterns) {
    |findings| == |spans| &&
    forall i | 0 <= i < |spans| :: OriginOf(findings[i], lines, p, PreviousEnd(spans, i), spans[i].hi)
  }

  /** What the machine holds after n lines, by the spans closed so far. */
  ghost predicate Originates(m: Machine, t: Track, lines: seq<string>, p: Patterns, n: nat)
    requires n <= |lines|
  {
    PreviousEnd(t.closed, |t.closed|) <= t.open <= n && (m.current.lines != [] <==> t.open < n) &&
    m.current.workspace == Workspace(lines, p, n) &&
    m.current.testName == TestName(lines, p, PreviousEnd(t.closed, |t.closed|), n) &&
    OriginsOf(m.findings, t.closed, lines, p)
  }

  lemma OneMoreOrigin(findings: seq<Block>, spans: seq<Span>, b: Block, s: Span, lines: seq<string>, p: Patterns)
    requires OriginsOf(findings, spans, lines, p) && OriginOf(b, lines, p, PreviousEnd(spans, |spans|), s.hi)
    ensures OriginsOf(findings + [b], spans + [s], lines, p)
  {
    var all := spans + [s];
    forall i | 0 <= i < |all| ensures OriginOf((findings + [b])[i], lines, p, PreviousEnd(all, i), all[i].hi) {
      assert PreviousEnd(all, i) == PreviousEnd(spans, i);
    }
  }

  /** Pushing at line k: the workspace of line k is the block's. */
  lemma PushedOrigins(m: Machine, t: Track, lines: seq<string>, p: Patterns, k: nat)
    requires k < |lines| && Originates(m, t, lines, p, k)
    ensures OriginsOf(Pushed(WithWorkspace(m, p, lines[k])).findings, Close(t, k), lines, p)
  {
    if t.open < k {
      OneMoreOrigin(m.findings, t.closed, WithWorkspace(m, p, lines[k]).current, Span(t.open, k), lines, p);
    }
  }

  /** A line that opens a block: a name given before any line of the block stays with it. */
  lemma OpenOrigins(m: Machine, t: Track, lines: seq<string>, p: Patterns, k: nat)
    requires k < |lines| && Originates(m, t, lines, p, k) && Opens(p, lines[k])
    ensures Originates(StepLine(m, p, lines[k]), Track(Close(t, k), k), lines, p, k + 1)
  {
    PushedOrigins(m, t, lines, p, k);
    OpenStep(m, p, lines[k]);
    OpenedNames(m, p, lines[k]);
    assert TestName(lines, p, k, k) == None;
  }

  lemma OpenedNames(m: Machine, p: Patterns, line: string)
    requires Opens(p, line)
    ensures StepLine(m, p, line).current.workspace ==
            if p.recursive(line).Some? then p.recursive(line) else WithWorkspace(m, p, line).current.workspace
    ensures StepLine(m, p, line).current.testName == if m.current.lines == [] then m.current.testName else None
  {
  }

  /** A blank line with a block open. */
  lemma BlankOrigins(m: Machine, t: Track, lines: seq<string>, p: Patterns, k: nat)
    requires MatchesNonBlank(p) && k < |lines| && Originates(m, t, lines, p, k)
    requires !Opens(p, lines[k]) && t.open < k && IsBlank(lines[k])
    ensures Originates(StepLine(m, p, lines[k]), Track(Close(t, k), k + 1), lines, p, k + 1)
  {
    PushedOrigins(m, t, lines, p, k);
    BusyStep(m, p, lines[k]);
    assert TestName(lines, p, k, k) == None;
  }

  /** Any other line closes nothing. */
  lemma OtherOrigins(m: Machine, t: Track, lines: seq<string>, p: Patterns, k: nat, open: nat)
    requires MatchesNonBlank(p) && k < |lines| && Originates(m, t, lines, p, k) && !Opens(p, lines[k])
    requires t.open < k ==> !IsBlank(lines[k]) && open == t.open
    requires t.open == k ==>
               open == if p.signal(lines[k]) && !(p.testName(lines[k]).Some? && Unnamed(m.current.testName)) then k
                       else k + 1
    ensures Originates(StepLine(m, p, lines[k]), Track(t.closed, open), lines, p, k + 1)
  {
    OtherNames(m, p, lines[k]);
    NextName(lines, p, PreviousEnd(t.closed, |t.closed|), k);
    NextWorkspace(lines, p, k);
    SameOrigins(m, StepLine(m, p, lines[k]), t, open, lines, p, k);
  }

  lemma NextWorkspace(lines: seq<string>, p: Patterns, k: nat)
    requires k < |lines| && !Opens(p, lines[k])
    ensures Workspace(lines, p, k + 1) ==
            if p.workspace(lines[k]).Some? then p.workspace(lines[k]) else Workspace(lines, p, k)
  {
  }

  lemma SameOrigins(m: Machine, next: Machine, t: Track, open: nat, lines: seq<string>, p: Patterns, k: nat)
    requires k < |lines| && Originates(m, t, lines, p, k) && t.open <= open <= k + 1
    requires next.findings == m.findings && (next.current.lines != [] <==> open < k + 1)
    requires next.current.workspace == Workspace(lines, p, k + 1)
    requires next.current.testName == TestName(lines, p, PreviousEnd(t.closed, |t.closed|), k + 1)
    ensures Originates(next, Track(t.closed, open), lines, p, k + 1)
  {
  }

  lemma NextName(lines: seq<string>, p: Patterns, lo: nat, k: nat)
    requires lo <= k < |lines| && !Opens(p, lines[k])
    ensures var earlier := TestName(lines, p, lo, k);
            TestName(lines, p, lo, k + 1) ==
            if p.testName(lines[k]).Some? && Unnamed(earlier) then p.testName(lines[k]) else earlier
  {
  }

  lemma OtherNames(m: Machine, p: Patterns, line: string)
    requires MatchesNonBlank(p) && !Opens(p, line) && (m.current.lines != [] ==> !IsBlank(line))
    ensures var next, named := StepLine(m, p, line), p.testName(line).Some? && Unnamed(m.current.testName);
            next.findings == m.findings && next.current.workspace == WithWorkspace(m, p, line).current.workspace &&
            next.current.testName == (if named then p.testName(line) else m.current.testName) &&
            (next.current.lines != [] <==> m.current.lines != [] || (p.signal(line) && !named))
  {
  }

  lemma {:induction false} OriginsUpTo(lines: seq<string>, p: Patterns, n: nat)
    requires MatchesNonBlank(p) && n <= |lines|
    ensures Originates(Fold(lines[..n], p), Tracked(lines, p, n), lines, p, n)
  {
    if n == 0 {
      assert lines[..0] == [];
    } else {
      OriginsUpTo(lines, p, n - 1);
      NextOrigins(lines, p, n - 1);
    }
  }

  lemma NextOrigins(lines: seq<string>, p: Patterns, k: nat)
    requires MatchesNonBlank(p) && k < |lines| && Originates(Fold(lines[..k], p), Tracked(lines, p, k), lines, p, k)
    ensures Originates(Fold(lines[..k + 1], p), Tracked(lines, p, k + 1), lines, p, k + 1)
  {
    NextFold(lines, p, k);
    TrackHolds(lines, p, k);
    var m, t := Fold(lines[..k], p), Tracked(lines, p, k);
    if Opens(p, lines[k]) {
      OpenOrigins(m, t, lines, p, k);
    } else if t.open < k && IsBlank(lines[k]) {
      BlankOrigins(m, t, lines, p, k);
    } else {
      OtherOrigins(m, t, lines, p, k, Tracked(lines, p, k + 1).open);
    }
  }

  /** Every block has the first test name given since the block before it ended, and the workspace named last up to and
      including the line that closes it. */
  lemma BlockOrigins(lines: seq<string>, p: Patterns)
    requires MatchesNonBlank(p)
    ensures OriginsOf(Blocks(lines, p), Spans(lines, p), lines, p)
  {
    var n := |lines|;
    assert lines[..n] == lines;
    OriginsUpTo(lines, p, n);
    var m, t := Fold(lines, p), Tracked(lines, p, n);
    if t.open < n {
      OneMoreOrigin(m.findings, t.closed, m.current, Span(t.open, n), lines, p);
    }
  }

  /** A block keeps the workspace of its own lines exactly if the line that closes it names no other. */
  lemma OwnWorkspaceIff(lines: seq<string>, p: Patterns, i: nat)
    requires MatchesNonBlank(p) && i < |Spans(lines, p)|
    ensures i < |Blocks(lines, p)| && Spans(lines, p)[i].hi <= |lines|
    ensures var hi := Spans(lines, p)[i].hi;
            Blocks(lines, p)[i].workspace == Workspace(lines, p, hi) <==>
            hi == |lines| || p.workspace(lines[hi]) == None || p.workspace(lines[hi]) == Workspace(lines, p, hi)
  {
    BlockOrigins(lines, p);
    BlocksAreSpans(lines, p);
    assert OriginOf(Blocks(lines, p)[i], lines, p, PreviousEnd(Spans(lines, p), i), Spans(lines, p)[i].hi);
  }

  /** Two suite lines that name their workspaces: the first block is filed under the workspace of the second. */
  lemma NextWorkspaceStolen(p: Patterns, a: string, b: string)
    requires MatchesNonBlank(p) && p.suite(a).Some? && p.suite(b).Some? && p.workspace(a).Some? && p.workspace(b).Some?
    requires p.recursive(a) == None && p.recursive(b) == None && p.annotation(a) == None && p.annotation(b) == None
    ensures var blocks := Blocks([a, b], p);
            |blocks| == 2 && blocks[0].suite == p.suite(a) && blocks[0].workspace == p.workspace(b)
  {
    assert [a, b][..1] == [a] && [a][..0] == [];
    assert Fold([a], p) == StepLine(Fold([], p), p, a);
    assert Fold([a, b], p) == StepLine(Fold([a], p), p, b);
  }
}
