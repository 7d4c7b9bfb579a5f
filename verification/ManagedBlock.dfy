/** The rewrite of the marked suggestion region that `analyze` performs in the architecture document. */
module ManagedBlock {
  import opened Text

  const MARKER_REST := "!-- PLAYBOOK:ANALYZE_SUGGESTIONS -->"
  const MARKER := "<" + MARKER_REST
  const MARKER_LINE := MARKER + "\n"

  /** Which detectors fired; the suggestions are listed in this order. */
  datatype Signals = Signals(nextjs: bool, supabase: bool, tailwind: bool) {
    predicate Any() { nextjs || supabase || tailwind }
  }

  function Suggestions(s: Signals): seq<string> {
    (if s.nextjs then ["- Framework: Next.js"] else []) +
    (if s.supabase then ["- Database: Supabase"] else []) +
    (if s.tailwind then ["- Styling: Tailwind CSS"] else [])
  }

  function Lines(lines: seq<string>): string {
    if lines == [] then "" else lines[0] + "\n" + Lines(lines[1..])
  }

  /** The marker line followed by one line per suggestion. */
  function Block(s: Signals): string {
    MARKER_LINE + Lines(Suggestions(s))
  }

  // ----- The regular expression: marker, newline, then suggestion lines, as many as there are -----

  predicate StartsSuggestion(d: string) {
    "- " <= d && ("Framework: " <= d[2..] || "Database: " <= d[2..] || "Styling: " <= d[2..])
  }

  /** Where the first line of d ends. */
  function LineEnd(d: string): (n: nat)
    ensures n <= |d| && (forall i | 0 <= i < n :: !IsLineTerminator(d[i])) && (n < |d| ==> IsLineTerminator(d[n]))
  {
    if d == "" || IsLineTerminator(d[0]) then 0 else 1 + LineEnd(d[1..])
  }

  /** How much the suggestion lines at the start of d take up, each with its line feed if it has one. */
  function ListLength(d: string): (n: nat)
    ensures n <= |d|
  {
    if !StartsSuggestion(d) then 0
    else
      var e := LineEnd(d);
      assert e > 0 by { assert d[0] == '-'; }
      var next := if e < |d| && d[e] == '\n' then e + 1 else e;
      next + ListLength(d[next..])
  }

  /** The length of a match at the start of d, which begins with the marker line. */
  function RegionLength(d: string): (n: nat)
    requires MARKER_LINE <= d
    ensures |MARKER_LINE| <= n <= |d|
  {
    |MARKER_LINE| + ListLength(d[|MARKER_LINE|..])
  }

  /** Puts the block in the place of every region, from left to right. */
  function Rewrite(d: string, block: string): string {
    if d == "" then ""
    else if MARKER_LINE <= d then block + Rewrite(d[RegionLength(d)..], block)
    else [d[0]] + Rewrite(d[1..], block)
  }

  predicate Contains(d: string, w: string) {
    exists i | 0 <= i <= |d| :: w <= d[i..]
  }

  /** The document after one `analyze`: untouched without the marker or without suggestions. */
  function Analyze(d: string, s: Signals): string {
    if Contains(d, MARKER) && Suggestions(s) != [] then Rewrite(d, Block(s)) else d
  }

  // ----- The text outside the regions -----

  /** The pieces of d between the regions: one more than there are regions. */
  function Outside(d: string): (pieces: seq<string>)
    ensures |pieces| > 0
  {
    if d == "" then [""]
    else if MARKER_LINE <= d then [""] + Outside(d[RegionLength(d)..])
    else
      var rest := Outside(d[1..]);
      [[d[0]] + rest[0]] + rest[1..]
  }

  function Join(pieces: seq<string>, block: string): string
    requires |pieces| > 0
  {
    if |pieces| == 1 then pieces[0] else pieces[0] + block + Join(pieces[1..], block)
  }

  /** Every region becomes the block and nothing else changes. */
  lemma {:induction false} RewriteReplacesRegions(d: string, block: string)
    ensures Rewrite(d, block) == Join(Outside(d), block)
  {
    if d == "" {
    } else if MARKER_LINE <= d {
      var rest := d[RegionLength(d)..];
      RewriteReplacesRegions(rest, block);
      assert Outside(d)[1..] == Outside(rest);
      assert "" + block == block;
    } else {
      RewriteReplacesRegions(d[1..], block);
      var rest := Outside(d[1..]);
      var pieces := Outside(d);
      assert pieces == [[d[0]] + rest[0]] + rest[1..];
      if |rest| > 1 {
        assert pieces[1..] == rest[1..];
        assert ([d[0]] + rest[0]) + block + Join(rest[1..], block) ==
               [d[0]] + (rest[0] + block + Join(rest[1..], block));
      }
    }
  }

  /** The regions of d, in order. */
  function Regions(d: string): seq<string> {
    if d == "" then []
    else if MARKER_LINE <= d then [d[..RegionLength(d)]] + Regions(d[RegionLength(d)..])
    else Regions(d[1..])
  }

  /** Pieces and regions in turn. */
  function Interleave(pieces: seq<string>, regions: seq<string>): string
    requires |pieces| == |regions| + 1
  {
    if regions == [] then pieces[0] else pieces[0] + regions[0] + Interleave(pieces[1..], regions[1..])
  }

  lemma InterleaveMore(c: char, pieces: seq<string>, regions: seq<string>)
    requires |pieces| == |regions| + 1
    ensures Interleave([[c] + pieces[0]] + pieces[1..], regions) == [c] + Interleave(pieces, regions)
  {
    var more := [[c] + pieces[0]] + pieces[1..];
    assert more[1..] == pieces[1..];
    if regions != [] {
      var rest := Interleave(pieces[1..], regions[1..]);
      assert (([c] + pieces[0]) + regions[0]) + rest == [c] + ((pieces[0] + regions[0]) + rest);
    }
  }

  lemma InterleaveRegion(region: string, pieces: seq<string>, regions: seq<string>)
    requires |pieces| == |regions| + 1
    ensures Interleave([""] + pieces, [region] + regions) == region + Interleave(pieces, regions)
  {
    assert ([""] + pieces)[1..] == pieces && ([region] + regions)[1..] == regions;
    assert "" + region == region;
  }

  lemma CutAndJoin(d: string, n: nat)
    requires n <= |d|
    ensures d[..n] + d[n..] == d
  {
  }

  /** The pieces with the regions between them are the document, so nothing of it is neither. */
  lemma {:induction false} PiecesAndRegions(d: string)
    ensures |Outside(d)| == |Regions(d)| + 1 && Interleave(Outside(d), Regions(d)) == d
  {
    if d == "" {
    } else if MARKER_LINE <= d {
      var n := RegionLength(d);
      PiecesAndRegions(d[n..]);
      InterleaveRegion(d[..n], Outside(d[n..]), Regions(d[n..]));
      CutAndJoin(d, n);
    } else {
      PiecesAndRegions(d[1..]);
      InterleaveMore(d[0], Outside(d[1..]), Regions(d[1..]));
      assert [d[0]] + d[1..] == d;
    }
  }

  /** Every region starts with the marker line. */
  lemma {:induction false} RegionsAreMarked(d: string, i: nat)
    requires i < |Regions(d)|
    ensures MARKER_LINE <= Regions(d)[i]
  {
    if MARKER_LINE <= d {
      if i > 0 { RegionsAreMarked(d[RegionLength(d)..], i - 1); }
    } else {
      RegionsAreMarked(d[1..], i);
    }
  }

  lemma {:induction false} FirstPiece(d: string)
    ensures Outside(d)[0] <= d
  {
    if d != "" && !(MARKER_LINE <= d) {
      FirstPiece(d[1..]);
      assert d == [d[0]] + d[1..];
    }
  }

  /** No marker line is left in a piece: the regions are all there are. */
  lemma {:induction false} NoMarkerOutside(d: string, i: nat)
    requires i < |Outside(d)|
    ensures !Contains(Outside(d)[i], MARKER_LINE)
  {
    if d == "" {
    } else if MARKER_LINE <= d {
      if i > 0 { NoMarkerOutside(d[RegionLength(d)..], i - 1); }
    } else {
      NoMarkerOutside(d[1..], i);
      if i == 0 {
        FirstPiece(d);
        LongerPiece(d, Outside(d)[0], Outside(d[1..])[0]);
      }
    }
  }

  lemma LongerPiece(d: string, piece: string, rest: string)
    requires d != "" && piece <= d && piece == [d[0]] + rest && !(MARKER_LINE <= d) && !Contains(rest, MARKER_LINE)
    ensures !Contains(piece, MARKER_LINE)
  {
    forall i | 0 <= i <= |piece| ensures !(MARKER_LINE <= piece[i..]) {
      if i > 0 {
        assert piece[i..] == rest[i - 1..];
        assert !(MARKER_LINE <= rest[i - 1..]);
      }
    }
  }

  // ----- The regions stay where they are -----

  lemma RewriteHead(d: string, s: Signals)
    requires d != ""
    ensures MARKER_LINE <= d ==> '<' == (Rewrite(d, Block(s)) + "-")[0]
    ensures !(MARKER_LINE <= d) ==> Rewrite(d, Block(s)) == [d[0]] + Rewrite(d[1..], Block(s))
  {
    assert Block(s)[0] == MARKER_LINE[0] == '<';
  }

  /** Text without `<` at the start of a rewritten document was there before. */
  lemma {:induction false} PrefixSurvives(w: string, d: string, s: Signals)
    requires '<' !in w && w <= Rewrite(d, Block(s))
    ensures w <= d
  {
    if w != "" {
      RewriteHead(d, s);
      assert w[0] == Rewrite(d, Block(s))[0] != '<';
      assert Rewrite(d, Block(s))[1..] == Rewrite(d[1..], Block(s));
      PrefixSurvives(w[1..], d[1..], s);
      assert w == [w[0]] + w[1..] && d == [d[0]] + d[1..];
    }
  }

  lemma {:induction false} LineEndConcat(line: string, rest: string)
    requires forall i | 0 <= i < |line| :: !IsLineTerminator(line[i])
    ensures LineEnd(line + "\n" + rest) == |line|
  {
    var d := line + "\n" + rest;
    if line != "" {
      assert d[1..] == line[1..] + "\n" + rest;
      LineEndConcat(line[1..], rest);
    }
  }

  ghost predicate SuggestionLine(line: string) {
    StartsSuggestion(line) && forall i | 0 <= i < |line| :: !IsLineTerminator(line[i])
  }

  ghost predicate SuggestionLines(lines: seq<string>) {
    forall k | 0 <= k < |lines| :: SuggestionLine(lines[k])
  }

  lemma SuggestionsAreLines(s: Signals)
    ensures SuggestionLines(Suggestions(s))
  {
    FrameworkLine();
    DatabaseLine();
    StylingLine();
  }

  lemma FrameworkLine()
    ensures SuggestionLine("- Framework: Next.js")
  {
  }

  lemma DatabaseLine()
    ensures SuggestionLine("- Database: Supabase")
  {
  }

  lemma StylingLine()
    ensures SuggestionLine("- Styling: Tailwind CSS")
  {
  }

  lemma OneMoreLine(line: string, rest: string)
    requires SuggestionLine(line)
    ensures ListLength(line + "\n" + rest) == |line| + 1 + ListLength(rest)
  {
    var d := line + "\n" + rest;
    LineEndConcat(line, rest);
    assert d[|line| + 1..] == rest;
    StartsAlike(line, d);
  }

  lemma StartsAlike(line: string, d: string)
    requires line <= d && StartsSuggestion(line)
    ensures StartsSuggestion(d)
  {
    assert line[2..] <= d[2..] by { assert d[2..][..|line| - 2] == line[2..]; }
  }

  lemma Regroup(line: string, tail: string, rest: string)
    ensures (line + "\n" + tail) + rest == line + "\n" + (tail + rest)
  {
  }

  lemma {:induction false} ListLengthOfLines(lines: seq<string>, rest: string)
    requires SuggestionLines(lines)
    ensures ListLength(Lines(lines) + rest) == |Lines(lines)| + ListLength(rest)
  {
    if lines == [] {
      assert Lines(lines) + rest == rest;
    } else {
      var tail := Lines(lines[1..]);
      ListLengthOfLines(lines[1..], rest);
      OneMoreLine(lines[0], tail + rest);
      Regroup(lines[0], tail, rest);
    }
  }

  /** The region ends where no suggestion line follows. */
  lemma ListStops(d: string)
    ensures !StartsSuggestion(d[ListLength(d)..])
  {
    var _ := ListIsList(d);
    StartsLabelled(d[ListLength(d)..]);
  }

  lemma RegionRewritten(d: string, s: Signals)
    requires MARKER_LINE <= d
    ensures var block, r := Block(s), Rewrite(d, Block(s));
            MARKER_LINE <= r && RegionLength(r) == |block| && r[..|block|] == block &&
            r[|block|..] == Rewrite(d[RegionLength(d)..], block)
  {
    var rest := d[RegionLength(d)..];
    ListStops(d[|MARKER_LINE|..]);
    assert d[|MARKER_LINE|..][ListLength(d[|MARKER_LINE|..])..] == rest;
    SuggestionCannotAppear(rest, s);
    BlockRegion(s, Rewrite(rest, Block(s)));
  }

  lemma CharacterKept(d: string, s: Signals)
    requires d != "" && !(MARKER_LINE <= d)
    ensures var r := Rewrite(d, Block(s));
            r != "" && r[0] == d[0] && r[1..] == Rewrite(d[1..], Block(s)) && !(MARKER_LINE <= r)
  {
    var after := Rewrite(d[1..], Block(s));
    assert ([d[0]] + after)[1..] == after;
    if MARKER_LINE <= [d[0]] + after { MarkerWasThere(d, s); }
  }

  /** Rewriting keeps every piece of text outside the regions, and makes no new region. */
  lemma {:induction false} OutsideKept(d: string, s: Signals)
    ensures Outside(Rewrite(d, Block(s))) == Outside(d)
  {
    if d == "" {
    } else if MARKER_LINE <= d {
      OutsideKept(d[RegionLength(d)..], s);
      RegionRewritten(d, s);
    } else {
      OutsideKept(d[1..], s);
      CharacterKept(d, s);
    }
  }

  lemma SuggestionCannotAppear(rest: string, s: Signals)
    requires !StartsSuggestion(rest)
    ensures !StartsSuggestion(Rewrite(rest, Block(s)))
  {
    var after := Rewrite(rest, Block(s));
    LabelSurvives("Framework: ", rest, s);
    LabelSurvives("Database: ", rest, s);
    LabelSurvives("Styling: ", rest, s);
  }

  lemma LabelSurvives(w: string, rest: string, s: Signals)
    requires '<' !in w
    ensures "- " <= Rewrite(rest, Block(s)) && w <= Rewrite(rest, Block(s))[2..] ==> "- " <= rest && w <= rest[2..]
  {
    var after := Rewrite(rest, Block(s));
    if "- " <= after && w <= after[2..] {
      assert after == "- " + after[2..] && "- " + w <= after;
      PrefixSurvives("- " + w, rest, s);
      assert forall i | 0 <= i < |w| :: rest[2..][i] == ("- " + w)[i + 2];
    }
  }

  lemma BlockRegion(s: Signals, after: string)
    requires !StartsSuggestion(after)
    ensures MARKER_LINE <= Block(s) + after && RegionLength(Block(s) + after) == |Block(s)|
    ensures (Block(s) + after)[|Block(s)|..] == after
  {
    var d := Block(s) + after;
    assert d[|MARKER_LINE|..] == Lines(Suggestions(s)) + after;
    SuggestionsAreLines(s);
    ListLengthOfLines(Suggestions(s), after);
  }

  /** The marker line contains `<` only as its first character. */
  lemma MarkerTail()
    ensures '<' !in MARKER_LINE[1..]
  {
    assert MARKER_LINE[1..] == MARKER_REST + "\n";
  }

  lemma MarkerWasThere(d: string, s: Signals)
    requires d != "" && MARKER_LINE <= [d[0]] + Rewrite(d[1..], Block(s))
    ensures MARKER_LINE <= d
  {
    var marker := MARKER_LINE;
    SameHeadAndTail(marker, d[0], Rewrite(d[1..], Block(s)));
    MarkerTail();
    PrefixSurvives(marker[1..], d[1..], s);
    SameHeadAndTail(marker, d[0], d[1..]);
    assert d == [d[0]] + d[1..];
  }

  lemma SameHeadAndTail(w: string, c: char, tail: string)
    requires w != ""
    ensures w <= [c] + tail <==> w[0] == c && w[1..] <= tail
  {
    var d := [c] + tail;
    assert forall i | 0 <= i < |tail| :: d[i + 1] == tail[i];
    if w <= d {
      assert w[0] == d[0];
      forall i | 0 <= i < |w| - 1 ensures w[1..][i] == tail[i] { assert w[i + 1] == d[i + 1]; }
    }
    if w[0] == c && w[1..] <= tail {
      forall i | 0 <= i < |w| ensures w[i] == d[i] {
        if i > 0 { assert w[1..][i - 1] == tail[i - 1]; }
      }
    }
  }

  // ----- What a region is -----

  /** What a line of a region begins with. */
  ghost predicate Labelled(line: string) {
    "- Framework: " <= line || "- Database: " <= line || "- Styling: " <= line
  }

  ghost predicate OneLine(line: string) {
    forall i | 0 <= i < |line| :: line[i] !in ['\n', '\r', '\U{2028}', '\U{2029}']
  }

  /** A list of lines of a kind with what follows it: every line has its line feed, except that the last has none where
      the document or, by another line terminator, the line ends there; no such line follows. */
  ghost predicate IsList(kind: string -> bool, lines: seq<string>, list: string, next: string) {
    (forall k | 0 <= k < |lines| :: kind(lines[k]) && OneLine(lines[k])) && !kind(next) &&
    (list == Lines(lines) || (list + "\n" == Lines(lines) && EndsLine(next)))
  }

  /** Nothing more, or a line terminator that is no line feed. */
  ghost predicate EndsLine(next: string) { next == "" || next[0] in ['\r', '\U{2028}', '\U{2029}'] }

  /** The marker line with the labelled lines after it, all that there are. */
  ghost predicate IsRegion(region: string, next: string) {
    MARKER_LINE <= region && exists lines :: IsList(Labelled, lines, region[|MARKER_LINE|..], next)
  }

  lemma LabelSplits(first: string, d: string)
    ensures "- " <= d && first <= d[2..] <==> "- " + first <= d
  {
    var whole := "- " + first;
    if "- " <= d && first <= d[2..] {
      assert forall i | 0 <= i < |first| :: d[2..][i] == d[i + 2];
    }
    if whole <= d {
      assert d[..|whole|] == whole;
      assert d[2..][..|first|] == whole[2..] == first;
    }
  }

  lemma FrameworkSplits(d: string)
    ensures "- " <= d && "Framework: " <= d[2..] <==> "- Framework: " <= d
  {
    LabelSplits("Framework: ", d);
    assert "- " + "Framework: " == "- Framework: ";
  }

  lemma DatabaseSplits(d: string)
    ensures "- " <= d && "Database: " <= d[2..] <==> "- Database: " <= d
  {
    LabelSplits("Database: ", d);
    assert "- " + "Database: " == "- Database: ";
  }

  lemma StylingSplits(d: string)
    ensures "- " <= d && "Styling: " <= d[2..] <==> "- Styling: " <= d
  {
    LabelSplits("Styling: ", d);
    assert "- " + "Styling: " == "- Styling: ";
  }

  lemma StartsLabelled(d: string)
    ensures StartsSuggestion(d) <==> Labelled(d)
  {
    FrameworkSplits(d);
    DatabaseSplits(d);
    StylingSplits(d);
  }

  lemma LabelWithin(first: string, d: string)
    requires OneLine(first) && first <= d
    ensures first <= d[..LineEnd(d)]
  {
    forall i | 0 <= i < |first| ensures !IsLineTerminator(d[i]) { assert d[i] == first[i]; }
  }

  lemma LabelsAreOneLine()
    ensures OneLine("- Framework: ") && OneLine("- Database: ") && OneLine("- Styling: ")
  {
  }

  lemma FirstLine(d: string)
    requires Labelled(d)
    ensures Labelled(d[..LineEnd(d)]) && OneLine(d[..LineEnd(d)])
  {
    LabelsAreOneLine();
    if "- Framework: " <= d {
      LabelWithin("- Framework: ", d);
    } else if "- Database: " <= d {
      LabelWithin("- Database: ", d);
    } else {
      LabelWithin("- Styling: ", d);
    }
  }

  lemma LinesCons(line: string, lines: seq<string>)
    ensures Lines([line] + lines) == line + "\n" + Lines(lines)
  {
    assert ([line] + lines)[1..] == lines;
  }

  lemma Cut(d: string, m: nat, n: nat)
    requires m <= n <= |d|
    ensures d[..m] + d[m..][..n - m] == d[..n] && d[m..][n - m..] == d[n..]
  {
  }

  lemma OneLineMoreIsList(kind: string -> bool, line: string, lines: seq<string>, list: string, next: string)
    requires IsList(kind, lines, list, next) && kind(line) && OneLine(line)
    ensures IsList(kind, [line] + lines, line + "\n" + list, next)
  {
    LinesCons(line, lines);
    if list + "\n" == Lines(lines) {
      assert line + "\n" + list + "\n" == line + "\n" + (list + "\n");
    }
  }

  lemma LastLineIsList(kind: string -> bool, line: string, next: string)
    requires kind(line) && OneLine(line) && !kind(next) && EndsLine(next)
    ensures IsList(kind, [line], line, next)
  {
    LinesCons(line, []);
    assert [line] + [] == [line];
  }

  lemma EndsLineUnlabelled(next: string)
    requires EndsLine(next)
    ensures !Labelled(next)
  {
  }

  lemma NoSuggestion(d: string)
    requires !StartsSuggestion(d)
    ensures !Labelled(d) && IsList(Labelled, [], d[..ListLength(d)], d[ListLength(d)..])
  {
    StartsLabelled(d);
    assert d[..0] == "" && d[0..] == d;
  }

  lemma Dash(d: string)
    requires StartsSuggestion(d)
    ensures d != "" && d[0] == '-'
  {
    assert d[0] == "- "[0];
  }

  lemma FirstSuggestion(d: string)
    requires StartsSuggestion(d)
    ensures Labelled(d[..LineEnd(d)]) && OneLine(d[..LineEnd(d)])
  {
    StartsLabelled(d);
    FirstLine(d);
  }

  lemma OneSuggestion(d: string)
    requires StartsSuggestion(d)
    ensures var e := LineEnd(d);
            0 < e && ListLength(d) == if e < |d| && d[e] == '\n' then e + 1 + ListLength(d[e + 1..])
                                      else e + ListLength(d[e..])
  {
    Dash(d);
  }

  lemma AnotherTerminator(next: string)
    requires EndsLine(next)
    ensures ListLength(next) == 0
  {
  }

  lemma ListMore(d: string, e: nat, n: nat, rest: seq<string>)
    requires e < n <= |d| && d[e] == '\n' && Labelled(d[..e]) && OneLine(d[..e])
    requires IsList(Labelled, rest, d[e + 1..][..n - e - 1], d[e + 1..][n - e - 1..])
    ensures IsList(Labelled, [d[..e]] + rest, d[..n], d[n..])
  {
    Cut(d, e + 1, n);
    OneLineMoreIsList(Labelled, d[..e], rest, d[e + 1..][..n - e - 1], d[n..]);
    assert d[..e] + "\n" == d[..e + 1];
  }

  lemma ListLast(d: string, e: nat)
    requires e <= |d| && EndsLine(d[e..]) && Labelled(d[..e]) && OneLine(d[..e])
    ensures ListLength(d[e..]) == 0 && IsList(Labelled, [d[..e]], d[..e], d[e..])
  {
    AnotherTerminator(d[e..]);
    EndsLineUnlabelled(d[e..]);
    LastLineIsList(Labelled, d[..e], d[e..]);
  }

  /** What counts as the list at the start of d is one, all of it. */
  lemma {:induction false} ListIsList(d: string) returns (lines: seq<string>)
    ensures IsList(Labelled, lines, d[..ListLength(d)], d[ListLength(d)..])
    decreases |d|
  {
    if !StartsSuggestion(d) {
      NoSuggestion(d);
      return [];
    }
    OneSuggestion(d);
    FirstSuggestion(d);
    var e := LineEnd(d);
    if e < |d| && d[e] == '\n' {
      var rest := ListIsList(d[e + 1..]);
      ListMore(d, e, ListLength(d), rest);
      return [d[..e]] + rest;
    } else {
      assert e < |d| ==> d[e..][0] == d[e];
      ListLast(d, e);
      return [d[..e]];
    }
  }

  /** The first piece shows what the document starts with, up to a marker. */
  lemma PieceShows(rest: string)
    ensures Labelled(Outside(rest)[0]) ==> Labelled(rest)
    ensures rest != "" && rest[0] != '<' ==> Outside(rest)[0] != "" && Outside(rest)[0][0] == rest[0]
    ensures rest == "" ==> Outside(rest) == [""]
  {
    FirstPiece(rest);
    assert MARKER_LINE[0] == '<';
  }

  lemma ListAfter(d: string, m: nat, n: nat, lines: seq<string>)
    requires m <= n <= |d| && IsList(Labelled, lines, d[m..][..n - m], d[m..][n - m..])
    ensures IsList(Labelled, lines, d[..n][m..], d[n..])
  {
    assert d[..n][m..] == d[m..][..n - m] && d[m..][n - m..] == d[n..];
  }

  lemma FirstRegion(d: string)
    requires MARKER_LINE <= d
    ensures IsRegion(d[..RegionLength(d)], Outside(d[RegionLength(d)..])[0])
  {
    var m, n := |MARKER_LINE|, RegionLength(d);
    var lines := ListIsList(d[m..]);
    ListAfter(d, m, n, lines);
    ShownIsList(lines, d[..n][m..], d[n..]);
  }

  lemma ShownIsList(lines: seq<string>, list: string, rest: string)
    requires IsList(Labelled, lines, list, rest)
    ensures IsList(Labelled, lines, list, Outside(rest)[0])
  {
    PieceShows(rest);
  }

  /** Every region is a marker line with the suggestion lines after it. */
  lemma {:induction false} RegionExactly(d: string, i: nat)
    requires i < |Regions(d)|
    ensures |Outside(d)| == |Regions(d)| + 1 && IsRegion(Regions(d)[i], Outside(d)[i + 1])
  {
    PiecesAndRegions(d);
    if MARKER_LINE <= d {
      var n := RegionLength(d);
      if i > 0 {
        RegionExactly(d[n..], i - 1);
      } else {
        FirstRegion(d);
      }
    } else {
      RegionExactly(d[1..], i);
    }
  }

  /** The line of every detector that fired, in this order. */
  ghost function Written(s: Signals): string {
    "<!-- PLAYBOOK:ANALYZE_SUGGESTIONS -->\n" + (if s.nextjs then "- Framework: Next.js" + "\n" else "") +
    (if s.supabase then "- Database: Supabase" + "\n" else "") +
    (if s.tailwind then "- Styling: Tailwind CSS" + "\n" else "")
  }

  lemma LinesOf(x: bool, a: string, y: bool, b: string, z: bool, c: string)
    ensures Lines((if x then [a] else []) + (if y then [b] else []) + (if z then [c] else [])) ==
            (if x then a + "\n" else "") + (if y then b + "\n" else "") + (if z then c + "\n" else "")
  {
    LinesConcat((if x then [a] else []) + (if y then [b] else []), if z then [c] else []);
    LinesConcat(if x then [a] else [], if y then [b] else []);
  }

  lemma MarkerText()
    ensures MARKER == "<!-- PLAYBOOK:ANALYZE_SUGGESTIONS -->"
  {
    var text := "<!-- PLAYBOOK:ANALYZE_SUGGESTIONS -->";
    assert text[0] == '<' && text[1..] == MARKER_REST;
  }

  lemma MarkerLine()
    ensures MARKER_LINE == "<!-- PLAYBOOK:ANALYZE_SUGGESTIONS -->\n"
  {
    MarkerText();
  }

  lemma Appended(m: string, a: string, b: string, c: string)
    ensures m + (a + b + c) == m + a + b + c
  {
  }

  lemma BlockIsWritten(s: Signals)
    ensures Block(s) == Written(s)
  {
    var a, b, c := "- Framework: Next.js", "- Database: Supabase", "- Styling: Tailwind CSS";
    LinesOf(s.nextjs, a, s.supabase, b, s.tailwind, c);
    MarkerLine();
    Appended(MARKER_LINE, if s.nextjs then a + "\n" else "", if s.supabase then b + "\n" else "",
             if s.tailwind then c + "\n" else "");
  }

  lemma {:induction false} LinesConcat(a: seq<string>, b: seq<string>)
    ensures Lines(a + b) == Lines(a) + Lines(b)
  {
    if a == [] {
      assert a + b == b;
    } else {
      LinesConcat(a[1..], b);
      assert a + b == [a[0]] + (a[1..] + b);
      LinesCons(a[0], a[1..] + b);
    }
  }

  lemma RegionsAfter(r: string, block: string, tail: string)
    requires MARKER_LINE <= r && RegionLength(r) == |block| && r[..|block|] == block && r[|block|..] == tail
    ensures Regions(r) == [block] + Regions(tail)
  {
  }

  lemma RegionsPast(r: string, tail: string)
    requires r != "" && !(MARKER_LINE <= r) && r[1..] == tail
    ensures Regions(r) == Regions(tail)
  {
  }

  ghost predicate AllAre(regions: seq<string>, block: string) {
    forall i | 0 <= i < |regions| :: regions[i] == block
  }

  /** Rewriting leaves the block in every region. */
  lemma {:induction false} RegionsRewritten(d: string, s: Signals)
    ensures AllAre(Regions(Rewrite(d, Block(s))), Block(s))
  {
    if d == "" {
    } else if MARKER_LINE <= d {
      var rest := d[RegionLength(d)..];
      RegionsRewritten(rest, s);
      RegionRewritten(d, s);
      RegionsAfter(Rewrite(d, Block(s)), Block(s), Rewrite(rest, Block(s)));
    } else {
      RegionsRewritten(d[1..], s);
      CharacterKept(d, s);
      RegionsPast(Rewrite(d, Block(s)), Rewrite(d[1..], Block(s)));
    }
  }

  // ----- The guards of `analyze` change nothing -----

  lemma {:induction false} NoMarkerNoRewrite(d: string, block: string)
    requires !Contains(d, MARKER)
    ensures Rewrite(d, block) == d
  {
    if d != "" {
      assert d[0..] == d;
      forall i | 0 <= i <= |d[1..]| ensures !(MARKER <= d[1..][i..]) {
        assert d[1..][i..] == d[i + 1..];
      }
      NoMarkerNoRewrite(d[1..], block);
      assert MARKER <= MARKER_LINE;
    }
  }

  lemma AnalyzeIsRewrite(d: string, s: Signals)
    requires s.Any()
    ensures Analyze(d, s) == Rewrite(d, Block(s))
  {
    if !Contains(d, MARKER) {
      NoMarkerNoRewrite(d, Block(s));
    }
  }

  // ----- Main results -----

  /** Last write wins: an earlier analysis, whatever it detected, leaves no trace once a later one writes. */
  lemma LastWriteWins(d: string, a: Signals, b: Signals)
    requires b.Any()
    ensures Analyze(Analyze(d, a), b) == Analyze(d, b)
  {
    AnalyzeIsRewrite(d, b);
    AnalyzeIsRewrite(Analyze(d, a), b);
    if a.Any() {
      AnalyzeIsRewrite(d, a);
      OutsideKept(d, a);
      RewriteReplacesRegions(d, Block(b));
      RewriteReplacesRegions(Rewrite(d, Block(a)), Block(b));
    }
  }

  /** Analysing again with the same detections changes nothing. */
  lemma Idempotent(d: string, s: Signals)
    ensures Analyze(Analyze(d, s), s) == Analyze(d, s)
  {
    if s.Any() { LastWriteWins(d, s, s); }
  }

  /** What one analysis leaves: the pieces outside the regions, untouched, with the block in every region. */
  lemma OnlyRegionsChange(d: string, s: Signals)
    requires s.Any()
    ensures Analyze(d, s) == Join(Outside(d), Block(s)) && Outside(Analyze(d, s)) == Outside(d)
  {
    AnalyzeIsRewrite(d, s);
    RewriteReplacesRegions(d, Block(s));
    OutsideKept(d, s);
  }

  /** And there are as many regions as before, each with the marker line and the lines of what was detected. */
  lemma RegionsExactly(d: string, s: Signals)
    requires s.Any()
    ensures |Regions(Analyze(d, s))| == |Regions(d)|
    ensures AllAre(Regions(Analyze(d, s)), Written(s))
  {
    AnalyzeIsRewrite(d, s);
    OutsideKept(d, s);
    PiecesAndRegions(d);
    PiecesAndRegions(Analyze(d, s));
    BlockIsWritten(s);
    RegionsRewritten(d, s);
  }

  /** Nothing changes where nothing was detected. */
  lemma NothingDetected(d: string, s: Signals)
    requires !s.nextjs && !s.supabase && !s.tailwind
    ensures Analyze(d, s) == d
  {
  }
}
