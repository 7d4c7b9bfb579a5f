/** What the matcher makes of any pattern at all, with or without `?`: when it throws, and what it accepts if not. */
module GlobReading {
  import opened Text
  import opened Glob
  import opened GlobUnits
  import opened GlobExact

  /** A `?` comes next, which the expression takes for a mark on what is before it. */
  predicate Marked(us: seq<Unit>) { us != [] && us[0] == Ch('?') }

  function Unmarked(us: seq<Unit>): seq<Unit> { if Marked(us) then us[1..] else us }

  /** What follows the first unit and its marks: up to two on a character, one on a wildcard. */
  function Rest(us: seq<Unit>): (rest: seq<Unit>)
    requires us != []
    ensures |rest| < |us|
  {
    if us[0].Ch? && Marked(us[1..]) then Unmarked(us[2..])
    else if us[0].Ch? then us[1..]
    else Unmarked(us[1..])
  }

  /** No `?` is left with nothing to mark. */
  ghost predicate IsExpression(us: seq<Unit>)
    decreases |us|
  {
    us == [] || (us[0] != Ch('?') && IsExpression(Rest(us)))
  }

  /** A marked character may be missing, any other stands for itself; marks on wildcards mean nothing. */
  ghost predicate Reads(us: seq<Unit>, f: string)
    decreases |us|
  {
    if us == [] then f == ""
    else match us[0]
      case Ch(c) =>
        (Marked(us[1..]) && Reads(Rest(us), f)) || (f != "" && f[0] == c && Reads(Rest(us), f[1..]))
      case Segment => exists k | 0 <= k <= |f| :: SegmentRun(f[..k]) && Reads(Rest(us), f[k..])
      case Any => exists k | 0 <= k <= |f| :: AnyRun(f[..k]) && Reads(Rest(us), f[k..])
  }

  function FirstTerm(us: seq<Unit>): Term
    requires us != []
  {
    var t := UnitTerm(us[0]);
    if us[0].Ch? && Marked(us[1..]) then t.(quantifier := Optional) else t
  }

  function TermsOf(us: seq<Unit>): seq<Term>
    decreases |us|
  {
    if us == [] then [] else [FirstTerm(us)] + TermsOf(Rest(us))
  }

  // ----- Parsing -----

  lemma StarFreeTail(us: seq<Unit>, k: nat)
    requires StarFree(us) && k <= |us|
    ensures StarFree(us[k..])
  {
  }

  /** Reading what marks the emitted text starts with. */
  lemma MarkEmitted(us: seq<Unit>)
    requires StarFree(us)
    ensures EmitAll(us) != "" && EmitAll(us)[0] == '?' <==> Marked(us)
    ensures Marked(us) ==> EmitAll(us)[1..] == EmitAll(us[1..])
    ensures EmitAll(us) != "" ==> EmitAll(us)[0] != '*'
  {
    EmittedHead(us);
  }

  lemma CharacterQuantifier(us: seq<Unit>)
    requires StarFree(us)
    ensures ReadQuantifier(EmitAll(us)) ==
            if Marked(us) then (Optional, EmitAll(Unmarked(us[1..]))) else (Once, EmitAll(us))
  {
    MarkEmitted(us);
    if Marked(us) {
      StarFreeTail(us, 1);
      MarkEmitted(us[1..]);
      var e := EmitAll(us);
      assert |e| > 1 ==> e[1] == e[1..][0];
      assert |e| > 1 ==> e[2..] == e[1..][1..];
    }
  }

  lemma WildcardQuantifier(us: seq<Unit>)
    requires StarFree(us)
    ensures ReadQuantifier("*" + EmitAll(us)) == (Star, EmitAll(Unmarked(us)))
  {
    MarkEmitted(us);
    var e := "*" + EmitAll(us);
    assert e[1..] == EmitAll(us);
    assert |e| > 1 ==> e[1] == EmitAll(us)[0] && e[2..] == EmitAll(us)[1..];
  }

  lemma {:induction false} ParseExactly(us: seq<Unit>)
    requires StarFree(us)
    ensures Parse(EmitAll(us)) == if IsExpression(us) then Some(TermsOf(us)) else None
    decreases |us|
  {
    if us != [] {
      ReadUnit(us);
      EmittedHead(us);
      if us[0] != Ch('?') {
        StarFreeTail(us, 1);
        if us[0].Ch? { CharacterQuantifier(us[1..]); } else { WildcardQuantifier(us[1..]); }
        assert Marked(us[1..]) ==> us[1..][1..] == us[2..];
        RestStarFree(us);
        ParseExactly(Rest(us));
      }
    }
  }

  lemma RestStarFree(us: seq<Unit>)
    requires us != [] && StarFree(us)
    ensures StarFree(Rest(us))
  {
  }

  // ----- Acceptance -----

  lemma RunOf(atom: Atom, f: string, k: nat)
    requires k <= |f|
    ensures atom == NotSlash ==> (SegmentRun(f[..k]) <==> forall i | 0 <= i < k :: AtomAccepts(atom, f[i]))
    ensures atom == Dot ==> (AnyRun(f[..k]) <==> forall i | 0 <= i < k :: AtomAccepts(atom, f[i]))
  {
    assert forall i | 0 <= i < k :: f[..k][i] == f[i];
  }

  lemma {:induction false} AcceptsExactly(us: seq<Unit>, f: string)
    ensures Accepts(TermsOf(us), f) <==> Reads(us, f)
    decreases |us|
  {
    if us != [] {
      var terms, rest := TermsOf(us), Rest(us);
      assert terms[1..] == TermsOf(rest);
      if us[0].Ch? {
        AcceptsExactly(rest, f);
        if f != "" { AcceptsExactly(rest, f[1..]); }
      } else {
        StarRun(terms, f);
        forall k | 0 <= k <= |f| ensures Accepts(terms[1..], f[k..]) <==> Reads(rest, f[k..]) {
          AcceptsExactly(rest, f[k..]);
        }
        forall k | 0 <= k <= |f|
          ensures (if us[0] == Segment then SegmentRun(f[..k]) else AnyRun(f[..k])) <==>
                  forall i | 0 <= i < k :: AtomAccepts(terms[0].atom, f[i])
        {
          RunOf(terms[0].atom, f, k);
        }
      }
    }
  }

  // ----- Main result -----

  /** The matcher on any pattern: with the placeholders read back, it throws exactly if some `?` has nothing to mark,
      and otherwise accepts exactly what the characters, the marked characters and the wildcards read. */
  lemma MatcherExactly(pattern: string, file: string)
    ensures var us := Reread(Expand(Units(pattern)));
            MatchesGlob(file, pattern) == if IsExpression(us) then Some(Reads(us, file)) else None
  {
    var us := Reread(Expand(Units(pattern)));
    CompileIsReread(pattern);
    UnitsStarFree(pattern);
    ExpandStarFree(Units(pattern));
    RereadStarFree(Expand(Units(pattern)));
    ParseExactly(us);
    AcceptsExactly(us, file);
  }

  /** Where no text of the pattern is misread, these are its own characters and wildcards. */
  lemma UnmisreadExactly(pattern: string, file: string)
    requires NowhereMisread(pattern)
    ensures var us := Units(pattern);
            MatchesGlob(file, pattern) == if IsExpression(us) then Some(Reads(us, file)) else None
  {
    MatcherExactly(pattern, file);
    RereadExact(pattern);
  }
}
