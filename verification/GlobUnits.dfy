/** The strings between the compiler's stages as sequences of units, free of escapes: each replacement becomes a
    function on units, and what is emitted parses back to one term per unit. */
module GlobUnits {
  import opened Text
  import opened Glob

  // ----- Units: the strings between the stages, seen without their escapes -----

  datatype Unit = Ch(c: char) | Segment | Any

  function Units(p: string): seq<Unit> {
    if p == "" then []
    else if "**" <= p then [Any] + Units(p[2..])
    else if p[0] == '*' then [Segment] + Units(p[1..])
    else [Ch(p[0])] + Units(p[1..])
  }

  const NEEDLE := [Ch(':'), Ch(':'), Ch('D'), Ch('S'), Ch(':'), Ch(':')]

  /** Every `**` written out as the six characters of its placeholder. */
  function Expand(us: seq<Unit>): seq<Unit> {
    if us == [] then [] else (if us[0] == Any then NEEDLE else [us[0]]) + Expand(us[1..])
  }

  /** The last replacement, on units. */
  function Reread(us: seq<Unit>): seq<Unit> {
    if us == [] then []
    else if NEEDLE <= us then [Any] + Reread(us[6..])
    else [us[0]] + Reread(us[1..])
  }

  function EmitEarly(u: Unit): string {
    match u
    case Ch(c) => EscapeChar(c)
    case Segment => "*"
    case Any => PLACEHOLDER
  }

  function Emit(u: Unit): string {
    match u
    case Ch(c) => EscapeChar(c)
    case Segment => "[^/]*"
    case Any => ".*"
  }

  function EmitAllEarly(us: seq<Unit>): string {
    if us == [] then "" else EmitEarly(us[0]) + EmitAllEarly(us[1..])
  }

  function EmitAll(us: seq<Unit>): string {
    if us == [] then "" else Emit(us[0]) + EmitAll(us[1..])
  }

  ghost predicate StarFree(us: seq<Unit>) { forall i | 0 <= i < |us| :: us[i] != Ch('*') }

  // ----- The three replacements, stage by stage -----

  /** Text without the needle's first character passes through a replacement unchanged. */
  lemma {:induction false} PassOver(a: string, s: string, needle: string, with: string)
    requires needle != "" && needle[0] !in a
    ensures ReplaceAll(a + s, needle, with) == a + ReplaceAll(s, needle, with)
  {
    if a == "" {
      assert a + s == s;
    } else {
      assert (a + s)[0] == a[0] && (a + s)[1..] == a[1..] + s;
      PassOver(a[1..], s, needle, with);
    }
  }

  lemma UnitsStarFree(p: string)
    ensures StarFree(Units(p))
  {
  }

  lemma EscapeStars(p: string)
    requires "**" <= p
    ensures Escape(p) == "**" + Escape(p[2..])
  {
    assert p[1..][0] == '*' && p[1..][1..] == p[2..];
    assert Escape(p) == "*" + Escape(p[1..]) == "*" + ("*" + Escape(p[2..]));
  }

  lemma ReplaceStars(rest: string)
    ensures ReplaceAll("**" + rest, "**", PLACEHOLDER) == PLACEHOLDER + ReplaceAll(rest, "**", PLACEHOLDER)
  {
    assert ("**" + rest)[2..] == rest;
  }

  lemma {:induction false} StageDoubleStar(p: string)
    ensures ReplaceAll(Escape(p), "**", PLACEHOLDER) == EmitAllEarly(Units(p))
  {
    if p == "" {
    } else if "**" <= p {
      StageDoubleStar(p[2..]);
      EscapeStars(p);
      ReplaceStars(Escape(p[2..]));
    } else if p[0] == '*' {
      StageDoubleStar(p[1..]);
      assert Escape(p) == "*" + Escape(p[1..]);
      assert p[1..] == "" || p[1] != '*';
      assert Escape(p[1..]) == "" || Escape(p[1..])[0] != '*';
      assert Escape(p)[1..] == Escape(p[1..]);
      assert |Escape(p)| > 1 ==> Escape(p)[1] == Escape(p[1..])[0] != '*';
    } else {
      StageDoubleStar(p[1..]);
      PassOver(EscapeChar(p[0]), Escape(p[1..]), "**", PLACEHOLDER);
    }
  }

  lemma Associative(x: string, y: string, z: string)
    ensures (x + y) + z == x + (y + z)
  {
  }

  lemma EmitCons(u: Unit, us: seq<Unit>)
    ensures EmitAll([u] + us) == Emit(u) + EmitAll(us)
  {
    assert ([u] + us)[1..] == us;
  }

  lemma {:induction false} EmitAllConcat(a: seq<Unit>, b: seq<Unit>)
    ensures EmitAll(a + b) == EmitAll(a) + EmitAll(b)
  {
    if a == [] {
      assert a + b == b;
    } else {
      EmitAllConcat(a[1..], b);
      assert a + b == [a[0]] + (a[1..] + b);
      EmitCons(a[0], a[1..] + b);
      Associative(Emit(a[0]), EmitAll(a[1..]), EmitAll(b));
    }
  }

  /** The string a plain run of characters without metacharacters emits is itself. */
  lemma EmitNeedle()
    ensures EmitAll(NEEDLE) == PLACEHOLDER
  {
    var n := NEEDLE;
    assert n[1..] == [Ch(':'), Ch('D'), Ch('S'), Ch(':'), Ch(':')];
    assert n[1..][1..] == [Ch('D'), Ch('S'), Ch(':'), Ch(':')];
    assert n[1..][1..][1..] == [Ch('S'), Ch(':'), Ch(':')];
    assert n[1..][1..][1..][1..] == [Ch(':'), Ch(':')];
    assert n[1..][1..][1..][1..][1..] == [Ch(':')];
    assert n[1..][1..][1..][1..][1..][1..] == [];
  }

  lemma {:induction false} StageStar(us: seq<Unit>)
    requires StarFree(us)
    ensures ReplaceAll(EmitAllEarly(us), "*", "[^/]*") == EmitAll(Expand(us))
  {
    if us != [] {
      StageStar(us[1..]);
      var tail := EmitAllEarly(us[1..]);
      match us[0]
      case Ch(c) =>
        PassOver(EscapeChar(c), tail, "*", "[^/]*");
        EmitCons(us[0], Expand(us[1..]));
      case Segment =>
        assert ("*" + tail)[1..] == tail;
        EmitCons(Segment, Expand(us[1..]));
      case Any =>
        PassOver(PLACEHOLDER, tail, "*", "[^/]*");
        EmitAllConcat(NEEDLE, Expand(us[1..]));
        EmitNeedle();
    }
  }

  function Chars(w: string): seq<Unit> {
    if w == "" then [] else [Ch(w[0])] + Chars(w[1..])
  }

  /** A prefix made of `:`, `D`, `S` in the emitted text comes from the same characters as units. */
  lemma {:induction false} PrefixOfUnits(w: string, us: seq<Unit>)
    requires forall i | 0 <= i < |w| :: w[i] in ":DS"
    requires w <= EmitAll(us)
    ensures Chars(w) <= us
  {
    if w != "" {
      assert us != [];
      assert EmitAll(us)[0] == w[0];
      assert us[0] == Ch(w[0]);
      assert EmitAll(us)[1..] == EmitAll(us[1..]);
      assert w[1..] <= EmitAll(us[1..]);
      PrefixOfUnits(w[1..], us[1..]);
    }
  }

  lemma CharsPlaceholder()
    ensures Chars(PLACEHOLDER) == NEEDLE
  {
    var w := PLACEHOLDER;
    assert w[1..] == ":DS::" && w[1..][1..] == "DS::" && w[1..][1..][1..] == "S::";
    assert w[1..][1..][1..][1..] == "::" && w[1..][1..][1..][1..][1..] == ":";
    assert w[1..][1..][1..][1..][1..][1..] == "";
    assert Chars("") == [] && Chars(":") == [Ch(':')] + Chars("");
  }

  /** The emitted text starts with the placeholder only where its six characters start. */
  lemma PlaceholderStarts(us: seq<Unit>)
    requires PLACEHOLDER <= EmitAll(us)
    ensures NEEDLE <= us
  {
    PrefixOfUnits(PLACEHOLDER, us);
    CharsPlaceholder();
  }

  lemma EmitColon(us: seq<Unit>)
    requires us != [] && us[0] == Ch(':')
    ensures EmitAll(us) == [':'] + EmitAll(us[1..]) && EmitAll(us)[1..] == EmitAll(us[1..])
  {
  }

  lemma PassColon(rest: string)
    requires !(PLACEHOLDER <= [':'] + rest)
    ensures ReplaceAll([':'] + rest, PLACEHOLDER, ".*") == [':'] + ReplaceAll(rest, PLACEHOLDER, ".*")
  {
    assert ([':'] + rest)[1..] == rest;
  }

  lemma {:induction false} StagePlaceholder(us: seq<Unit>)
    ensures ReplaceAll(EmitAll(us), PLACEHOLDER, ".*") == EmitAll(Reread(us))
  {
    if us == [] {
    } else if NEEDLE <= us {
      var rest := us[6..];
      StagePlaceholder(rest);
      assert us == NEEDLE + rest;
      EmitAllConcat(NEEDLE, rest);
      EmitNeedle();
      ReplaceHere(EmitAll(rest));
      EmitCons(Any, Reread(rest));
    } else {
      StagePlaceholder(us[1..]);
      EmitCons(us[0], Reread(us[1..]));
      if us[0] == Ch(':') {
        if PLACEHOLDER <= EmitAll(us) { PlaceholderStarts(us); }
        EmitColon(us);
        PassColon(EmitAll(us[1..]));
      } else {
        PassOver(Emit(us[0]), EmitAll(us[1..]), PLACEHOLDER, ".*");
      }
    }
  }

  lemma ReplaceHere(rest: string)
    ensures ReplaceAll(PLACEHOLDER + rest, PLACEHOLDER, ".*") == ".*" + ReplaceAll(rest, PLACEHOLDER, ".*")
  {
    assert (PLACEHOLDER + rest)[6..] == rest;
  }

  /** The compiler's output, without its escapes: placeholders written out and read back. */
  lemma CompileIsReread(p: string)
    ensures Compile(p) == EmitAll(Reread(Expand(Units(p))))
  {
    StageDoubleStar(p);
    UnitsStarFree(p);
    StageStar(Units(p));
    StagePlaceholder(Expand(Units(p)));
  }

  // ----- Parsing what was emitted -----

  ghost predicate Plain(us: seq<Unit>) { forall i | 0 <= i < |us| :: us[i] != Ch('*') && us[i] != Ch('?') }

  function UnitTerm(u: Unit): Term {
    match u
    case Ch(c) => Term(Literal(c), Once)
    case Segment => Term(NotSlash, Star)
    case Any => Term(Dot, Star)
  }

  function UnitTerms(us: seq<Unit>): seq<Term> {
    if us == [] then [] else [UnitTerm(us[0])] + UnitTerms(us[1..])
  }

  lemma ReadEscaped(c: char, rest: string)
    requires IsMeta(c)
    ensures ReadAtom(['\\', c] + rest) == Some((Literal(c), rest))
  {
    var e := ['\\', c] + rest;
    assert e[2..] == rest;
  }

  lemma ReadCharacter(c: char, rest: string)
    requires !IsMeta(c)
    ensures ReadAtom([c] + rest) == if c == '*' || c == '?' then None else Some((Literal(c), rest))
  {
    var e := [c] + rest;
    assert e[0] == c && e[1..] == rest;
    assert "[^/]"[0] == '[';
  }

  lemma ReadSegment(rest: string)
    ensures ReadAtom("[^/]*" + rest) == Some((NotSlash, "*" + rest))
  {
    var e := "[^/]*" + rest;
    assert e[4..] == "*" + rest;
  }

  lemma ReadDot(rest: string)
    ensures ReadAtom(".*" + rest) == Some((Dot, "*" + rest))
  {
    var e := ".*" + rest;
    assert e[1..] == "*" + rest;
  }

  /** Reading one unit of the emitted text: a starred class, or a literal whose quantifier is still to be read. */
  lemma ReadUnit(us: seq<Unit>)
    requires us != [] && StarFree(us)
    ensures us[0] == Ch('?') ==> ReadAtom(EmitAll(us)).None?
    ensures us[0].Ch? && us[0] != Ch('?') ==> ReadAtom(EmitAll(us)) == Some((Literal(us[0].c), EmitAll(us[1..])))
    ensures us[0] == Segment ==> ReadAtom(EmitAll(us)) == Some((NotSlash, "*" + EmitAll(us[1..])))
    ensures us[0] == Any ==> ReadAtom(EmitAll(us)) == Some((Dot, "*" + EmitAll(us[1..])))
  {
    var rest := EmitAll(us[1..]);
    assert EmitAll(us) == Emit(us[0]) + rest;
    match us[0]
    case Ch(c) => if IsMeta(c) { ReadEscaped(c, rest); } else { ReadCharacter(c, rest); }
    case Segment => ReadSegment(rest);
    case Any => ReadDot(rest);
  }

  lemma EmittedHead(us: seq<Unit>)
    requires StarFree(us)
    ensures us == [] ==> EmitAll(us) == ""
    ensures us != [] ==> EmitAll(us) != "" && EmitAll(us)[0] != '*' && (EmitAll(us)[0] == '?' <==> us[0] == Ch('?'))
    ensures us != [] && us[0] == Ch('?') ==> EmitAll(us)[1..] == EmitAll(us[1..])
  {
    if us != [] {
      assert EmitAll(us) == Emit(us[0]) + EmitAll(us[1..]);
      assert EmitAll(us)[0] == Emit(us[0])[0];
      if us[0] == Ch('?') { assert Emit(us[0]) == ['?']; }
    }
  }

  lemma {:induction false} ParsePlain(us: seq<Unit>)
    requires Plain(us)
    ensures Parse(EmitAll(us)) == Some(UnitTerms(us))
  {
    if us != [] {
      ParsePlain(us[1..]);
      ReadUnit(us);
      EmittedHead(us[1..]);
      var afterAtom := ReadAtom(EmitAll(us)).value.1;
      if us[0].Ch? {
        assert ReadQuantifier(afterAtom) == (Once, EmitAll(us[1..]));
      } else {
        assert afterAtom[1..] == EmitAll(us[1..]);
        assert ReadQuantifier(afterAtom) == (Star, EmitAll(us[1..]));
      }
    }
  }

  // ----- Acceptance of the units is the meaning of the glob -----

  /** A starred atom accepts a run it allows, then the rest. */
  lemma {:induction false} StarRun(terms: seq<Term>, f: string)
    requires terms != [] && terms[0].quantifier == Star
    ensures Accepts(terms, f) <==>
            exists k | 0 <= k <= |f| ::
              (forall i | 0 <= i < k :: AtomAccepts(terms[0].atom, f[i])) && Accepts(terms[1..], f[k..])
    decreases |f|
  {
    assert f[0..] == f;
    if f != "" && AtomAccepts(terms[0].atom, f[0]) {
      StarRun(terms, f[1..]);
      if Accepts(terms, f[1..]) {
        var k :| 0 <= k <= |f[1..]| && (forall i | 0 <= i < k :: AtomAccepts(terms[0].atom, f[1..][i])) &&
                 Accepts(terms[1..], f[1..][k..]);
        assert f[1..][k..] == f[k + 1..];
        assert forall i | 0 < i < k + 1 :: f[i] == f[1..][i - 1];
      }
      forall k | 0 < k <= |f| && (forall i | 0 <= i < k :: AtomAccepts(terms[0].atom, f[i])) &&
          Accepts(terms[1..], f[k..])
        ensures Accepts(terms, f[1..])
      {
        assert f[1..][k - 1..] == f[k..];
        assert forall i | 0 <= i < k - 1 :: f[1..][i] == f[i + 1];
      }
    }
  }

  /** A starred first term against the run of a wildcard, given the same for what follows. */
  lemma WildcardMeans(terms: seq<Term>, p: string, rest: string, f: string)
    requires terms != [] && terms[0].quantifier == Star
    requires ("**" <= p && rest == p[2..] && terms[0].atom == Dot) ||
             (!("**" <= p) && p != "" && p[0] == '*' && rest == p[1..] && terms[0].atom == NotSlash)
    requires forall k | 0 <= k <= |f| :: Accepts(terms[1..], f[k..]) <==> Means(rest, f[k..])
    ensures Accepts(terms, f) <==> Means(p, f)
  {
    StarRun(terms, f);
    forall k | 0 <= k <= |f|
      ensures (if terms[0].atom == Dot then AnyRun(f[..k]) else SegmentRun(f[..k])) <==>
              forall i | 0 <= i < k :: AtomAccepts(terms[0].atom, f[i])
    {
      assert forall i | 0 <= i < k :: f[..k][i] == f[i];
    }
  }

  lemma {:induction false} UnitsMean(p: string, f: string)
    ensures Accepts(UnitTerms(Units(p)), f) <==> Means(p, f)
  {
    var terms := UnitTerms(Units(p));
    if p == "" {
    } else if "**" <= p || p[0] == '*' {
      var rest := if "**" <= p then p[2..] else p[1..];
      assert terms[1..] == UnitTerms(Units(rest)) by { assert Units(p)[1..] == Units(rest); }
      forall k | 0 <= k <= |f| ensures Accepts(terms[1..], f[k..]) <==> Means(rest, f[k..]) {
        UnitsMean(rest, f[k..]);
      }
      WildcardMeans(terms, p, rest, f);
    } else {
      assert terms[1..] == UnitTerms(Units(p[1..])) by { assert Units(p)[1..] == Units(p[1..]); }
      if f != "" {
        UnitsMean(p[1..], f[1..]);
      }
    }
  }
}
