/** When the compiled regular expression means what the glob means: exactly for the safe patterns. */
module GlobExact {
  import opened Text
  import opened Glob
  import opened GlobUnits

  // ----- Where the placeholders are read back wrongly -----

  lemma ExpandChar(p: string)
    requires p != "" && p[0] != '*'
    ensures Expand(Units(p)) == [Ch(p[0])] + Expand(Units(p[1..]))
  {
    assert Units(p)[1..] == Units(p[1..]);
  }

  lemma ExpandAny(p: string)
    requires "**" <= p
    ensures Expand(Units(p)) == NEEDLE + Expand(Units(p[2..]))
  {
    assert Units(p)[1..] == Units(p[2..]);
  }

  /** What the expansion starts with: a colon for `**`, a segment for `*`, else the character itself. */
  lemma ExpandHead(p: string)
    ensures p == "" ==> Expand(Units(p)) == []
    ensures p != "" ==> Expand(Units(p)) != [] &&
                        Expand(Units(p))[0] == if "**" <= p then Ch(':') else if p[0] == '*' then Segment else Ch(p[0])
  {
  }

  /** A run of characters at the start of a pattern expands to itself. */
  lemma {:induction false} LiteralPrefix(p: string, n: nat)
    requires n <= |p| && forall i | 0 <= i < n :: p[i] != '*'
    ensures Expand(Units(p)) == Chars(p[..n]) + Expand(Units(p[n..]))
    ensures DoubleStars(Units(p)) == DoubleStars(Units(p[n..]))
  {
    if n == 0 {
      assert p[0..] == p;
    } else {
      LiteralPrefix(p[1..], n - 1);
      assert p[1..][n - 1..] == p[n..];
      assert p[..n][1..] == p[1..][..n - 1];
      CharStep(p);
    }
  }

  lemma CharStep(p: string)
    requires p != "" && p[0] != '*'
    ensures Expand(Units(p)) == [Ch(p[0])] + Expand(Units(p[1..]))
    ensures DoubleStars(Units(p)) == DoubleStars(Units(p[1..]))
  {
    assert Units(p)[1..] == Units(p[1..]);
  }

  lemma CharsDS()
    ensures Chars("::DS") == [Ch(':'), Ch(':'), Ch('D'), Ch('S')]
  {
    var w := "::DS";
    assert w[1..] == ":DS" && w[1..][1..] == "DS" && w[1..][1..][1..] == "S" && w[1..][1..][1..][1..] == "";
  }

  lemma ExpandDS(p: string)
    requires "::DS" <= p
    ensures Expand(Units(p)) == [Ch(':'), Ch(':'), Ch('D'), Ch('S')] + Expand(Units(p[4..]))
    ensures DoubleStars(Units(p)) == DoubleStars(Units(p[4..]))
  {
    assert p[..4] == "::DS";
    LiteralPrefix(p, 4);
    CharsDS();
  }

  /** A literal colon starts an occurrence of the placeholder exactly in the three misread texts. */
  lemma MisreadExactly(p: string)
    requires p != "" && p[0] == ':'
    ensures NEEDLE <= Expand(Units(p)) <==> Misread(p)
  {
    if NEEDLE <= Expand(Units(p)) { NeedleStart(p); }
    if "::DS" <= p {
      ExpandDS(p);
      SplitNeedle(Expand(Units(p[4..])));
      AfterDS(p[4..]);
    }
  }

  lemma SplitNeedle(tail: seq<Unit>)
    ensures NEEDLE <= [Ch(':'), Ch(':'), Ch('D'), Ch('S')] + tail <==> |tail| >= 2 && tail[0] == tail[1] == Ch(':')
  {
    var us := [Ch(':'), Ch(':'), Ch('D'), Ch('S')] + tail;
    if |tail| >= 2 { assert us[4] == tail[0] && us[5] == tail[1]; }
    if NEEDLE <= us { assert us[4] == NEEDLE[4] && us[5] == NEEDLE[5]; }
  }

  /** An expansion that starts with a single given character: so does the pattern. */
  lemma FirstUnit(p: string, c: char)
    requires c != '*' && |Expand(Units(p))| > 0 && Expand(Units(p))[0] == Ch(c)
    requires c == ':' ==> |Expand(Units(p))| > 1 && Expand(Units(p))[1] != Ch(':')
    ensures p != "" && p[0] == c && Expand(Units(p)) == [Ch(c)] + Expand(Units(p[1..]))
  {
    ExpandHead(p);
    assert !("**" <= p) by { if "**" <= p { StarsLead(p); } }
    ExpandChar(p);
  }

  lemma NeedleStart(p: string)
    requires p != "" && p[0] == ':' && NEEDLE <= Expand(Units(p))
    ensures "::DS" <= p
  {
    ExpandChar(p);
    var a, b, c := p[1..], p[1..][1..], p[1..][1..][1..];
    var e := Expand(Units(p));
    assert e[1] == NEEDLE[1] && e[2] == NEEDLE[2] && e[3] == NEEDLE[3];
    FirstUnit(a, ':');
    FirstUnit(b, 'D');
    FirstUnit(c, 'S');
    assert p[1] == a[0] && p[2] == b[0] && p[3] == c[0];
  }

  /** A `**` expands to something that starts with two colons. */
  lemma StarsLead(q: string)
    requires "**" <= q
    ensures |Expand(Units(q))| >= 6 && Expand(Units(q))[0] == Expand(Units(q))[1] == Ch(':') && q[0] == '*'
  {
    ExpandAny(q);
  }

  lemma AfterDS(q: string)
    ensures |Expand(Units(q))| >= 2 && Expand(Units(q))[0] == Expand(Units(q))[1] == Ch(':') <==>
            CompletesPlaceholder(q)
  {
    ExpandHead(q);
    if "**" <= q {
      StarsLead(q);
    } else if q != "" && q[0] == ':' {
      ExpandChar(q);
      ExpandHead(q[1..]);
      assert "**" <= q[1..] <==> |q| > 2 && q[1] == '*' && q[2] == '*';
    }
  }

  ghost predicate NowhereMisread(p: string) { forall i | 0 <= i < |p| :: !Misread(p[i..]) }

  lemma MisreadTail(p: string, k: nat)
    requires k <= |p|
    ensures NowhereMisread(p) ==> NowhereMisread(p[k..])
    ensures NowhereMisread(p[k..]) && (forall i | 0 <= i < k :: !Misread(p[i..])) ==> NowhereMisread(p)
  {
    forall i | 0 <= i < |p[k..]| ensures p[k..][i..] == p[k + i..] { }
    if NowhereMisread(p[k..]) && (forall i | 0 <= i < k :: !Misread(p[i..])) {
      forall i | 0 <= i < |p| ensures !Misread(p[i..]) {
        if i >= k { assert p[k..][i - k..] == p[i..]; }
      }
    }
  }

  lemma {:induction false} RereadExact(p: string)
    requires NowhereMisread(p)
    ensures Reread(Expand(Units(p))) == Units(p)
  {
    if p == "" {
    } else if "**" <= p {
      MisreadTail(p, 2);
      RereadExact(p[2..]);
      ExpandAny(p);
      assert (NEEDLE + Expand(Units(p[2..])))[6..] == Expand(Units(p[2..]));
    } else {
      MisreadTail(p, 1);
      RereadExact(p[1..]);
      assert p[0..] == p;
      var us := Expand(Units(p));
      assert us[1..] == Expand(Units(p[1..])) by { assert Units(p)[1..] == Units(p[1..]); }
      if p[0] == ':' { MisreadExactly(p); }
    }
  }

  // ----- Shortest words: an unsafe pattern accepts a word its glob does not -----

  /** The characters of a unit sequence, wildcards empty. */
  function Word(us: seq<Unit>): string {
    if us == [] then "" else (if us[0].Ch? then [us[0].c] else "") + Word(us[1..])
  }

  /** The shortest word the terms accept. */
  function Shortest(terms: seq<Term>): string {
    if terms == [] then ""
    else (if terms[0].quantifier != Once then "" else if terms[0].atom.Literal? then [terms[0].atom.c] else "a") +
         Shortest(terms[1..])
  }

  lemma {:induction false} ShortestAccepted(terms: seq<Term>)
    ensures Accepts(terms, Shortest(terms))
  {
    if terms != [] {
      ShortestAccepted(terms[1..]);
      var w := Shortest(terms);
      if terms[0].quantifier == Once {
        assert w[1..] == Shortest(terms[1..]);
      } else {
        assert w == Shortest(terms[1..]);
      }
    }
  }

  lemma WordOfPattern(p: string)
    requires p != ""
    ensures Word(Units(p)) == if "**" <= p then Word(Units(p[2..])) else if p[0] == '*' then Word(Units(p[1..]))
                              else [p[0]] + Word(Units(p[1..]))
  {
    assert Units(p)[1..] == if "**" <= p then Units(p[2..]) else Units(p[1..]);
  }

  /** A glob matches no word shorter than its own characters, and of that length only these. */
  lemma {:induction false} MeansAtLeast(p: string, f: string)
    requires Means(p, f)
    ensures |f| >= |Word(Units(p))|
    ensures |f| == |Word(Units(p))| ==> f == Word(Units(p))
  {
    if p != "" {
      WordOfPattern(p);
      if "**" <= p {
        var k :| 0 <= k <= |f| && AnyRun(f[..k]) && Means(p[2..], f[k..]);
        MeansAtLeast(p[2..], f[k..]);
        assert k == 0 ==> f[k..] == f;
      } else if p[0] == '*' {
        var k :| 0 <= k <= |f| && SegmentRun(f[..k]) && Means(p[1..], f[k..]);
        MeansAtLeast(p[1..], f[k..]);
        assert k == 0 ==> f[k..] == f;
      } else {
        MeansAtLeast(p[1..], f[1..]);
        assert f == [f[0]] + f[1..];
      }
    }
  }

  /** How many placeholders are read back. */
  function Hits(us: seq<Unit>): nat {
    if us == [] then 0 else if NEEDLE <= us then 1 + Hits(us[6..]) else Hits(us[1..])
  }

  /** Scanning greedily is optimal: dropping a prefix never adds a hit, dropping at most six units loses at most one. */
  lemma {:induction false} HitsOfSuffix(us: seq<Unit>, k: nat)
    requires k <= |us|
    ensures Hits(us[k..]) <= Hits(us)
    ensures k <= 6 ==> Hits(us) <= 1 + Hits(us[k..])
    decreases |us|
  {
    if us == [] || k == 0 {
      assert us[k..] == us;
    } else if NEEDLE <= us {
      if k >= 6 {
        assert us[6..][k - 6..] == us[k..];
        HitsOfSuffix(us[6..], k - 6);
      } else {
        assert us[k..][6 - k..] == us[6..];
        HitsOfSuffix(us[k..], 6 - k);
      }
    } else {
      assert us[1..][k - 1..] == us[k..];
      HitsOfSuffix(us[1..], k - 1);
    }
  }

  function DoubleStars(us: seq<Unit>): nat {
    if us == [] then 0 else (if us[0] == Any then 1 else 0) + DoubleStars(us[1..])
  }

  lemma {:induction false} HitsAtLeast(us: seq<Unit>)
    ensures Hits(Expand(us)) >= DoubleStars(us)
  {
    if us != [] {
      HitsAtLeast(us[1..]);
      var tail := Expand(us[1..]);
      if us[0] == Any {
        assert (NEEDLE + tail)[6..] == tail;
      } else {
        assert Expand(us)[1..] == tail;
        HitsOfSuffix(Expand(us), 1);
      }
    }
  }

  function CountQuery(us: seq<Unit>): nat {
    if us == [] then 0 else (if us[0] == Ch('?') then 1 else 0) + CountQuery(us[1..])
  }

  lemma MeasureCons(u: Unit, us: seq<Unit>)
    ensures Word([u] + us) == (if u.Ch? then [u.c] else "") + Word(us)
    ensures CountQuery([u] + us) == (if u == Ch('?') then 1 else 0) + CountQuery(us)
  {
    assert ([u] + us)[1..] == us;
  }

  lemma {:induction false} MeasureConcat(a: seq<Unit>, b: seq<Unit>)
    ensures Word(a + b) == Word(a) + Word(b)
    ensures CountQuery(a + b) == CountQuery(a) + CountQuery(b)
  {
    if a == [] {
      assert a + b == b;
    } else {
      MeasureConcat(a[1..], b);
      MeasureCons(a[0], a[1..] + b);
      assert a + b == [a[0]] + (a[1..] + b);
      Associative(if a[0].Ch? then [a[0].c] else "", Word(a[1..]), Word(b));
    }
  }

  lemma NeedleMeasures()
    ensures |Word(NEEDLE)| == 6 && CountQuery(NEEDLE) == 0
  {
    var n := NEEDLE;
    assert n[1..] == [Ch(':'), Ch('D'), Ch('S'), Ch(':'), Ch(':')];
    assert n[1..][1..] == [Ch('D'), Ch('S'), Ch(':'), Ch(':')];
    assert n[1..][1..][1..] == [Ch('S'), Ch(':'), Ch(':')];
    assert n[1..][1..][1..][1..] == [Ch(':'), Ch(':')];
    assert n[1..][1..][1..][1..][1..] == [Ch(':')];
    assert n[1..][1..][1..][1..][1..][1..] == [];
  }

  lemma {:induction false} ExpandMeasures(us: seq<Unit>)
    ensures |Word(Expand(us))| == |Word(us)| + 6 * DoubleStars(us)
    ensures CountQuery(Expand(us)) == CountQuery(us)
  {
    if us != [] {
      ExpandMeasures(us[1..]);
      var head := if us[0] == Any then NEEDLE else [us[0]];
      MeasureConcat(head, Expand(us[1..]));
      NeedleMeasures();
    }
  }

  lemma {:induction false} RereadMeasures(us: seq<Unit>)
    ensures |Word(Reread(us))| == |Word(us)| - 6 * Hits(us)
    ensures CountQuery(Reread(us)) == CountQuery(us)
  {
    if us == [] {
    } else if NEEDLE <= us {
      RereadMeasures(us[6..]);
      assert us == NEEDLE + us[6..];
      MeasureConcat(NEEDLE, us[6..]);
      NeedleMeasures();
      MeasureConcat([Any], Reread(us[6..]));
    } else {
      RereadMeasures(us[1..]);
      MeasureConcat([us[0]], Reread(us[1..]));
      MeasureConcat([us[0]], us[1..]);
      assert us == [us[0]] + us[1..];
    }
  }

  /** What is read back has no more characters than the glob, and the same number of `?`. */
  lemma RereadNoLonger(p: string)
    ensures |Word(Reread(Expand(Units(p))))| == |Word(Units(p))| - 6 * (Hits(Expand(Units(p))) - DoubleStars(Units(p)))
    ensures |Word(Reread(Expand(Units(p))))| <= |Word(Units(p))|
    ensures CountQuery(Reread(Expand(Units(p)))) == CountQuery(Units(p))
  {
    RereadMeasures(Expand(Units(p)));
    ExpandMeasures(Units(p));
    HitsAtLeast(Units(p));
  }

  /** Some text is misread: the characters read back differ from those of the glob. */
  lemma {:induction false} MisreadDeviates(p: string)
    requires !NowhereMisread(p)
    ensures Word(Reread(Expand(Units(p)))) != Word(Units(p))
  {
    assert p[0..] == p;
    if "**" <= p {
      ExpandAny(p);
      MisreadTail(p, 2);
      assert p[1..][0] == '*';
      MisreadDeviates(p[2..]);
      WordReadBack(Expand(Units(p)), Expand(Units(p[2..])));
      assert Units(p)[1..] == Units(p[2..]);
    } else if Misread(p) {
      MisreadHere(p);
    } else {
      MisreadTail(p, 1);
      MisreadDeviates(p[1..]);
      if p[0] == ':' { MisreadExactly(p); }
      WordKept(p);
      if p[0] != '*' {
        SameTail(p[0], Word(Reread(Expand(Units(p[1..])))), Word(Units(p[1..])));
      }
    }
  }

  lemma WordReadBack(vs: seq<Unit>, rest: seq<Unit>)
    requires vs == NEEDLE + rest
    ensures Word(Reread(vs)) == Word(Reread(rest))
  {
    assert vs[6..] == rest;
    assert Reread(vs)[1..] == Reread(rest);
  }

  /** A pattern that does not start with `**` or a misread text keeps its first character or `*`. */
  lemma WordKept(p: string)
    requires p != "" && !("**" <= p) && (p[0] == ':' ==> !(NEEDLE <= Expand(Units(p))))
    ensures p[0] == '*' ==> Word(Units(p)) == Word(Units(p[1..]))
    ensures p[0] == '*' ==> Word(Reread(Expand(Units(p)))) == Word(Reread(Expand(Units(p[1..]))))
    ensures p[0] != '*' ==> Word(Units(p)) == [p[0]] + Word(Units(p[1..]))
    ensures p[0] != '*' ==> Word(Reread(Expand(Units(p)))) == [p[0]] + Word(Reread(Expand(Units(p[1..]))))
  {
    assert Units(p)[1..] == Units(p[1..]);
    var vs := Expand(Units(p));
    assert vs[1..] == Expand(Units(p[1..]));
    assert Reread(vs)[1..] == Reread(vs[1..]);
  }

  lemma SameTail(c: char, a: string, b: string)
    requires a != b
    ensures [c] + a != [c] + b
  {
    assert ([c] + a)[1..] == a && ([c] + b)[1..] == b;
  }

  lemma MisreadHere(p: string)
    requires Misread(p)
    ensures Word(Reread(Expand(Units(p)))) != Word(Units(p))
  {
    if "::" <= p[4..] {
      assert p == "::DS" + p[4..];
      WholeLiteral(p);
    } else if "**" <= p[4..] {
      TwoStars(p);
    } else {
      ColonStars(p);
    }
  }

  lemma TwoStars(p: string)
    requires "::DS" <= p && "**" <= p[4..]
    ensures Word(Reread(Expand(Units(p)))) != Word(Units(p))
  {
    var rest := ExpandTwoStars(p);
    ReadBackD(Expand(Units(p)), rest);
    WordOfPattern(p);
    assert p[0] == ':';
  }

  lemma ExpandTwoStars(p: string) returns (rest: seq<Unit>)
    requires "::DS" <= p && "**" <= p[4..]
    ensures rest != [] && rest[0] == Ch('D') && Expand(Units(p)) == NEEDLE + rest
  {
    ExpandDS(p);
    ExpandAny(p[4..]);
    rest := [Ch('D'), Ch('S'), Ch(':'), Ch(':')] + Expand(Units(p[4..][2..]));
  }

  lemma ColonStars(p: string)
    requires "::DS" <= p && ":**" <= p[4..]
    ensures Word(Reread(Expand(Units(p)))) != Word(Units(p))
  {
    ExpandDS(p);
    var tail := ExpandColonStars(p[4..]);
    var rest := [Ch(':'), Ch('D'), Ch('S'), Ch(':'), Ch(':')] + tail;
    assert Expand(Units(p)) == NEEDLE + rest;
    ReadBackColon(Expand(Units(p)), rest);
    SecondCharOfWord(p);
  }

  lemma ExpandColonStars(q: string) returns (tail: seq<Unit>)
    requires ":**" <= q
    ensures Expand(Units(q)) == [Ch(':')] + NEEDLE + tail
  {
    assert q[0] == ':' && q[1..][0] == '*' && q[1..][1] == '*';
    ExpandChar(q);
    ExpandAny(q[1..]);
    tail := Expand(Units(q[1..][2..]));
  }

  lemma SecondCharOfWord(p: string)
    requires |p| >= 2 && p[0] == p[1] == ':'
    ensures |Word(Units(p))| > 1 && Word(Units(p))[1] == ':'
  {
    WordOfPattern(p);
    WordOfPattern(p[1..]);
  }

  /** The placeholder text itself: one more hit than there are `**`, so six characters fewer. */
  lemma WholeLiteral(p: string)
    requires PLACEHOLDER <= p
    ensures |Word(Reread(Expand(Units(p))))| < |Word(Units(p))|
  {
    assert p[..6] == PLACEHOLDER;
    LiteralPrefix(p, 6);
    CharsPlaceholder();
    HitsOfNeedle(Expand(Units(p[6..])));
    HitsAtLeast(Units(p[6..]));
    RereadNoLonger(p);
  }

  lemma HitsOfNeedle(tail: seq<Unit>)
    ensures Hits(NEEDLE + tail) == 1 + Hits(tail)
  {
    assert (NEEDLE + tail)[6..] == tail;
  }

  lemma ReadBackD(vs: seq<Unit>, rest: seq<Unit>)
    requires vs == NEEDLE + rest && rest != [] && rest[0] == Ch('D')
    ensures Word(Reread(vs)) != "" && Word(Reread(vs))[0] == 'D'
  {
    assert vs[6..] == rest;
    assert Reread(vs) == [Any] + Reread(rest);
    assert Reread(vs)[1..] == Reread(rest);
    assert Reread(rest)[0] == Ch('D');
  }

  lemma ReadBackColon(vs: seq<Unit>, rest: seq<Unit>)
    requires vs == NEEDLE + rest && |rest| > 1 && rest[0] == Ch(':') && rest[1] == Ch('D')
    ensures |Word(Reread(vs))| > 1 && Word(Reread(vs))[1] == 'D'
  {
    assert vs[6..] == rest;
    assert Reread(vs) == [Any] + Reread(rest);
    assert Reread(vs)[1..] == Reread(rest);
    assert rest[1..][0] == Ch('D');
    assert Reread(rest) == [Ch(':')] + Reread(rest[1..]);
    assert Reread(rest[1..])[0] == Ch('D');
    assert Reread(rest)[1..] == Reread(rest[1..]);
    assert Word(Reread(rest)) == ":" + Word(Reread(rest[1..]));
  }

  // ----- `?` is left unescaped: the regular expression asks for fewer characters -----

  lemma {:induction false} ParsedShortest(us: seq<Unit>)
    requires StarFree(us) && Parse(EmitAll(us)).Some?
    ensures |Shortest(Parse(EmitAll(us)).value)| <= |Word(us)| - CountQuery(us)
    decreases |us|
  {
    if us != [] {
      ReadUnit(us);
      var afterAtom := ReadAtom(EmitAll(us)).value.1;
      var k := ReadQueries(us, afterAtom);
      var rest := us[1 + k..];
      ParsedShortest(rest);
      var terms := Parse(EmitAll(us)).value;
      assert terms[1..] == Parse(EmitAll(rest)).value;
      assert |Word(us)| - CountQuery(us) == (if us[0].Ch? then 1 else 0) + |Word(rest)| - CountQuery(rest) by {
        SkipQueries(us[1..], k);
        assert us[1..][k..] == rest;
      }
    }
  }

  /** After an atom the quantifier takes some number of `?`, none of them a character of the pattern. */
  lemma ReadQueries(us: seq<Unit>, afterAtom: string) returns (k: nat)
    requires us != [] && StarFree(us) && us[0] != Ch('?')
    requires afterAtom == (if us[0].Ch? then "" else "*") + EmitAll(us[1..])
    ensures 1 + k <= |us| && forall i | 0 <= i < k :: us[1..][i] == Ch('?')
    ensures ReadQuantifier(afterAtom).1 == EmitAll(us[1 + k..])
    ensures !us[0].Ch? ==> ReadQuantifier(afterAtom).0 == Star
  {
    var rest := us[1..];
    EmittedHead(rest);
    k := 0;
    if us[0].Ch? {
      assert afterAtom == EmitAll(rest);
      if rest != [] && rest[0] == Ch('?') {
        EmittedHead(rest[1..]);
        assert afterAtom[1..] == EmitAll(rest[1..]);
        k := 1;
        assert rest[1..] == us[2..];
        if |rest| > 1 && rest[1] == Ch('?') {
          k := 2;
          assert afterAtom[1] == '?';
          assert afterAtom[2..] == afterAtom[1..][1..] == EmitAll(rest[1..][1..]);
          assert rest[1..][1..] == us[3..];
        } else {
          assert |afterAtom| > 1 ==> afterAtom[1] == EmitAll(rest[1..])[0] != '?';
        }
      }
    } else {
      assert afterAtom[1..] == EmitAll(rest);
      if rest != [] && rest[0] == Ch('?') {
        k := 1;
        assert afterAtom[1] == '?';
        assert afterAtom[2..] == afterAtom[1..][1..] == EmitAll(rest[1..]);
        assert rest[1..] == us[2..];
      } else {
        assert |afterAtom| > 1 ==> afterAtom[1] == EmitAll(rest)[0] != '?';
      }
    }
  }

  lemma {:induction false} SkipQueries(us: seq<Unit>, k: nat)
    requires k <= |us| && forall i | 0 <= i < k :: us[i] == Ch('?')
    ensures |Word(us)| - CountQuery(us) == |Word(us[k..])| - CountQuery(us[k..])
  {
    if k == 0 {
      assert us[0..] == us;
    } else {
      SkipQueries(us[1..], k - 1);
      assert us[1..][k - 1..] == us[k..];
    }
  }

  lemma {:induction false} RereadStarFree(us: seq<Unit>)
    requires StarFree(us)
    ensures StarFree(Reread(us))
  {
    if us == [] {
    } else if NEEDLE <= us {
      RereadStarFree(us[6..]);
    } else {
      RereadStarFree(us[1..]);
    }
  }

  lemma {:induction false} ExpandStarFree(us: seq<Unit>)
    requires StarFree(us)
    ensures StarFree(Expand(us))
  {
    if us != [] { ExpandStarFree(us[1..]); }
  }

  lemma {:induction false} QueriesOf(p: string)
    ensures CountQuery(Units(p)) > 0 <==> '?' in p
    ensures '?' !in p ==> Plain(Units(p))
  {
    if p == "" {
    } else if "**" <= p {
      QueriesOf(p[2..]);
      assert Units(p)[1..] == Units(p[2..]);
      assert p == "**" + p[2..];
    } else {
      QueriesOf(p[1..]);
      assert Units(p)[1..] == Units(p[1..]);
      assert p == [p[0]] + p[1..];
    }
  }

  // ----- The main theorems -----

  /** The regular expression of a safe glob accepts exactly what the glob means, on every file name. */
  lemma SafeGlobExact(pattern: string, file: string)
    requires Safe(pattern)
    ensures MatchesGlob(file, pattern) == Some(Means(pattern, file))
  {
    CompileIsReread(pattern);
    RereadExact(pattern);
    QueriesOf(pattern);
    ParsePlain(Units(pattern));
    UnitsMean(pattern, file);
  }

  /** An unsafe glob is wrong: either the RegExp constructor throws, or the shortest word it accepts is not in the
      glob. */
  lemma UnsafeGlobWrong(pattern: string) returns (file: string)
    requires !Safe(pattern)
    ensures MatchesGlob(file, pattern) != Some(Means(pattern, file))
  {
    CompileIsReread(pattern);
    var us := Reread(Expand(Units(pattern)));
    file := "";
    match Parse(EmitAll(us))
    case None =>
    case Some(terms) =>
      file := Shortest(terms);
      ShortestAccepted(terms);
      UnitsStarFree(pattern);
      ExpandStarFree(Units(pattern));
      RereadStarFree(Expand(Units(pattern)));
      ParsedShortest(us);
      RereadNoLonger(pattern);
      QueriesOf(pattern);
      if Means(pattern, file) {
        MeansAtLeast(pattern, file);
        assert CountQuery(us) == 0;
        assert |Word(us)| == |Word(Units(pattern))|;
        NoQueryPlain(us);
        ParsePlain(us);
        ShortestOfUnits(us);
        MisreadDeviates(pattern);
        assert false;
      }
  }

  lemma {:induction false} NoQueryPlain(us: seq<Unit>)
    requires StarFree(us) && CountQuery(us) == 0
    ensures Plain(us)
  {
    if us != [] { NoQueryPlain(us[1..]); }
  }

  lemma {:induction false} ShortestOfUnits(us: seq<Unit>)
    ensures Shortest(UnitTerms(us)) == Word(us)
  {
    if us != [] { ShortestOfUnits(us[1..]); }
  }

  /** The matcher agrees with the glob on every file name exactly when the pattern is safe. */
  lemma GlobExactIff(pattern: string)
    ensures (forall file :: MatchesGlob(file, pattern) == Some(Means(pattern, file))) <==> Safe(pattern)
  {
    if Safe(pattern) {
      forall file { SafeGlobExact(pattern, file); }
    } else {
      var file := UnsafeGlobWrong(pattern);
    }
  }
}
