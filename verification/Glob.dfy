/** The glob matcher of the governance rules: a chain of four string replacements that compiles
    a glob into the source text of a regular expression, which is then parsed and run. */
module Glob {
  import opened Text

  // ----- The compiler: string to string -----

  const PLACEHOLDER := "::DS::"

  /** The characters that the first replacement escapes: those with a meaning in regular expressions, but not `*` and
      `?`. */
  predicate IsMeta(c: char) {
    c == '.' || c == '+' || c == '^' || c == '$' || c == '{' || c == '}' ||
    c == '(' || c == ')' || c == '|' || c == '[' || c == ']' || c == '\\'
  }

  function EscapeChar(c: char): string {
    if IsMeta(c) then ['\\', c] else [c]
  }

  /** Puts a backslash before every such character. */
  function Escape(p: string): string {
    if p == "" then "" else EscapeChar(p[0]) + Escape(p[1..])
  }

  /** Replaces every occurrence of a literal needle: leftmost first, not overlapping. */
  function ReplaceAll(s: string, needle: string, with: string): string
    requires needle != ""
  {
    if s == "" then ""
    else if needle <= s then with + ReplaceAll(s[|needle|..], needle, with)
    else [s[0]] + ReplaceAll(s[1..], needle, with)
  }

  function Compile(pattern: string): string {
    ReplaceAll(ReplaceAll(ReplaceAll(Escape(pattern), "**", PLACEHOLDER), "*", "[^/]*"), PLACEHOLDER, ".*")
  }

  // ----- Regular expressions: the syntax the compiler can emit, and what it accepts -----

  datatype Atom = Literal(c: char) | NotSlash | Dot
  datatype Quantifier = Once | Optional | Star
  datatype Term = Term(atom: Atom, quantifier: Quantifier)

  /** The characters that stand for themselves only after a backslash: SyntaxCharacter of the ECMAScript grammar. */
  predicate IsSyntax(c: char) {
    c == '^' || c == '$' || c == '\\' || c == '.' || c == '*' || c == '+' || c == '?' || c == '(' || c == ')' ||
    c == '[' || c == ']' || c == '{' || c == '}' || c == '|'
  }

  /** One atom and the rest of the source, or None where the source is no regular expression. */
  function ReadAtom(e: string): Option<(Atom, string)>
    requires e != ""
    ensures ReadAtom(e).Some? ==> |ReadAtom(e).value.1| < |e|
  {
    if e[0] == '\\' then
      if |e| > 1 && IsSyntax(e[1]) then Some((Literal(e[1]), e[2..])) else None
    else if "[^/]" <= e then Some((NotSlash, e[4..]))
    else if e[0] == '.' then Some((Dot, e[1..]))
    else if IsSyntax(e[0]) then None
    else Some((Literal(e[0]), e[1..]))
  }

  /** An optional `*` or `?`, itself optionally made lazy by a further `?`. */
  function ReadQuantifier(e: string): (Quantifier, string)
    ensures |ReadQuantifier(e).1| <= |e|
  {
    if e != "" && (e[0] == '*' || e[0] == '?') then
      (if e[0] == '*' then Star else Optional, if |e| > 1 && e[1] == '?' then e[2..] else e[1..])
    else (Once, e)
  }

  function Parse(e: string): Option<seq<Term>>
    decreases |e|
  {
    if e == "" then Some([])
    else match ReadAtom(e)
      case None => None
      case Some((atom, afterAtom)) =>
        var (quantifier, rest) := ReadQuantifier(afterAtom);
        match Parse(rest)
        case None => None
        case Some(terms) => Some([Term(atom, quantifier)] + terms)
  }

  predicate AtomAccepts(a: Atom, c: char) {
    match a
    case Literal(d) => c == d
    case NotSlash => c != '/'
    case Dot => !IsLineTerminator(c)
  }

  /** Anchored acceptance by backtracking; whether a quantifier is lazy does not change what is accepted. */
  predicate Accepts(terms: seq<Term>, f: string)
    decreases |terms|, |f|
  {
    if terms == [] then f == ""
    else
      var first := f != "" && AtomAccepts(terms[0].atom, f[0]);
      match terms[0].quantifier
      case Once => first && Accepts(terms[1..], f[1..])
      case Optional => Accepts(terms[1..], f) || (first && Accepts(terms[1..], f[1..]))
      case Star => Accepts(terms[1..], f) || (first && Accepts(terms, f[1..]))
  }

  /** Whether the anchored expression of a pattern accepts a file name; None where it is no regular expression. */
  function MatchesGlob(file: string, pattern: string): Option<bool> {
    match Parse(Compile(pattern))
    case None => None
    case Some(terms) => Some(Accepts(terms, file))
  }

  // ----- The meaning a glob is meant to have, read in one pass -----

  ghost predicate AnyRun(s: string) { forall i | 0 <= i < |s| :: !IsLineTerminator(s[i]) }

  ghost predicate SegmentRun(s: string) { forall i | 0 <= i < |s| :: s[i] != '/' }

  /** `**` is any run of characters within a line, `*` any run without `/`, every other character itself. */
  ghost predicate Means(p: string, f: string) {
    if p == "" then f == ""
    else if "**" <= p then exists k | 0 <= k <= |f| :: AnyRun(f[..k]) && Means(p[2..], f[k..])
    else if p[0] == '*' then exists k | 0 <= k <= |f| :: SegmentRun(f[..k]) && Means(p[1..], f[k..])
    else f != "" && f[0] == p[0] && Means(p[1..], f[1..])
  }

  /** What follows `::DS` when the last replacement reads the two together as a placeholder. */
  predicate CompletesPlaceholder(q: string) {
    "::" <= q || ":**" <= q || "**" <= q
  }

  /** A literal text that the last replacement reads as a placeholder: `::DS::`, `::DS:**` or `::DS**`. */
  predicate Misread(p: string) {
    "::DS" <= p && CompletesPlaceholder(p[4..])
  }

  /** What a caller can check: no `?`, and nowhere a text read back as a placeholder. */
  predicate Safe(p: string) {
    '?' !in p && forall i | 0 <= i < |p| :: !Misread(p[i..])
  }

  // ----- File names without line terminators -----

  /** The same reading with `**` for any run of characters at all. */
  ghost predicate MeansAnyText(p: string, f: string) {
    if p == "" then f == ""
    else if "**" <= p then exists k | 0 <= k <= |f| :: MeansAnyText(p[2..], f[k..])
    else if p[0] == '*' then exists k | 0 <= k <= |f| :: SegmentRun(f[..k]) && MeansAnyText(p[1..], f[k..])
    else f != "" && f[0] == p[0] && MeansAnyText(p[1..], f[1..])
  }

  /** On a file name of one line, "within a line" is no restriction. */
  lemma {:induction false} OneLineMeansAnyText(p: string, f: string)
    requires AnyRun(f)
    ensures Means(p, f) <==> MeansAnyText(p, f)
  {
    if p == "" {
    } else if "**" <= p {
      forall k | 0 <= k <= |f| ensures AnyRun(f[..k]) && (Means(p[2..], f[k..]) <==> MeansAnyText(p[2..], f[k..])) {
        OneLineMeansAnyText(p[2..], f[k..]);
      }
    } else if p[0] == '*' {
      forall k | 0 <= k <= |f| ensures Means(p[1..], f[k..]) <==> MeansAnyText(p[1..], f[k..]) {
        OneLineMeansAnyText(p[1..], f[k..]);
      }
    } else if f != "" {
      OneLineMeansAnyText(p[1..], f[1..]);
    }
  }
}
