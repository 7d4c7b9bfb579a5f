/** What every run of lifecycle commands keeps: keys, links, supersession chains and audit logs. */
module PromotionRuns {
  import opened Text
  import opened Sorting
  import opened Promotion

  type Records = map<string, Pattern>

  // ----- Links between records -----

  /** The links of one record: its successor is another record that lists it, and what it lists exists. */
  ghost predicate LinkedAt(m: Records, id: string)
    requires id in m
  {
    (m[id].supersededBy.Some? ==>
       var q := m[id].supersededBy.value; q != id && q in m && id in m[q].supersedes) &&
    (forall x | x in m[id].supersedes :: x in m) &&
    (m[id].status == Superseded ==> m[id].supersededBy.Some?)
  }

  ghost predicate Linked(m: Records) { Keyed(m) && forall id | id in m :: LinkedAt(m, id) }

  /** Nothing disappears, and what a record was promoted from never changes. */
  ghost predicate Grows(a: Records, b: Records) {
    forall id | id in a :: id in b && b[id].fingerprint == a[id].fingerprint && b[id].content == a[id].content
  }

  ghost predicate SameOrigin(a: Pattern, b: Pattern) {
    a.fingerprint == b.fingerprint && a.content == b.content
  }

  /** What a write to x may be: links kept, never a superseded status. */
  ghost predicate LawfulOne(m: Records, next: Pattern, x: string) {
    next.id == x && next.status != Superseded &&
    if x in m then
      next.supersededBy == m[x].supersededBy && next.supersedes == m[x].supersedes && SameOrigin(next, m[x])
    else next.supersededBy == None && next.supersedes == []
  }

  /** What superseding x by y may write: x points to y, y lists x, nothing else about links. */
  ghost predicate LawfulBoth(m: Records, a: Pattern, b: Pattern, x: string, y: string) {
    x != y && x in m && y in m && a.id == x && b.id == y &&
    a.status == Superseded && a.supersededBy == Some(y) && a.supersedes == m[x].supersedes && SameOrigin(a, m[x]) &&
    b.supersededBy == m[y].supersededBy && (b.status == Superseded <==> m[y].status == Superseded) &&
    SameOrigin(b, m[y]) &&
    (forall z :: z in b.supersedes <==> z in m[y].supersedes || z == x)
  }

  ghost predicate Lawful(m: Records, d: Decision, x: string, y: string) {
    match d
    case WriteOne(next) => LawfulOne(m, next, x)
    case WriteBoth(a, b) => LawfulBoth(m, a, b, x, y)
    case _ => true
  }

  lemma SupersedeIsLawful(m: Records, x: string, y: string, reason: string, at: string, le: Compare)
    requires TotalPreorder(le) && Keyed(m) && x != y && x in m && y in m
    ensures LawfulBoth(m, SupersededRecord(m[x], y, reason, at, le), SuccessorRecord(m[y], x, reason, at, le), x, y)
  {
    SortedSetSpec(m[y].supersedes + [x], le);
  }

  lemma PlainWriteIsLawful(m: Records, next: Pattern, x: string, reason: string, at: string, le: Compare)
    requires Keyed(m) && x in m && PlainWrite(m[x], next, reason, at, le)
    ensures LawfulOne(m, next, x)
  {
  }

  lemma WrittenIsLawful(m: Records, d: Decision, r: Request, at: string, le: Compare)
    requires TotalPreorder(le) && Keyed(m) && Writes(m, d, r, at, le)
    ensures Lawful(m, d, r.id, SuccessorId(r))
  {
    match d
    case WriteOne(next) =>
      if !r.Promote? { PlainWriteIsLawful(m, next, r.id, r.reason, at, le); }
    case WriteBoth(a, b) => SupersedeIsLawful(m, r.id, SuccessorId(r), r.reason, at, le);
    case _ =>
  }

  lemma DecisionIsLawful(m: Records, r: Request, at: string, le: Compare)
    requires TotalPreorder(le) && Keyed(m)
    ensures Lawful(m, DecideOn(m, r, at, le), r.id, SuccessorId(r))
  {
    DecisionWrites(m, r, at, le);
    WrittenIsLawful(m, DecideOn(m, r, at, le), r, at, le);
  }

  lemma LawfulOneKeepsLinks(m: Records, next: Pattern, x: string)
    requires Linked(m) && LawfulOne(m, next, x)
    ensures Linked(m[x := next]) && Grows(m, m[x := next])
  {
    var m' := m[x := next];
    forall id | id in m' ensures LinkedAt(m', id) {
      if id in m { assert LinkedAt(m, id); }
    }
  }

  lemma LawfulBothKeepsLinks(m: Records, a: Pattern, b: Pattern, x: string, y: string)
    requires Linked(m) && LawfulBoth(m, a, b, x, y)
    ensures Linked(m[x := a][y := b]) && Grows(m, m[x := a][y := b])
  {
    var m' := m[x := a][y := b];
    forall id | id in m' ensures LinkedAt(m', id) {
      assert LinkedAt(m, id);
    }
  }

  lemma LawfulKeepsLinks(m: Records, d: Decision, x: string, y: string)
    requires Linked(m) && Lawful(m, d, x, y)
    ensures Linked(Apply(m, d)) && Grows(m, Apply(m, d))
  {
    match d
    case WriteOne(next) => LawfulOneKeepsLinks(m, next, x);
    case WriteBoth(a, b) => LawfulBothKeepsLinks(m, a, b, x, y);
    case _ =>
  }

  /** The next store of a run, seen on the map. */
  lemma NextStep(commands: seq<Command>, k: nat, le: Compare) returns (d: Decision)
    requires TotalPreorder(le) && k < |commands|
    requires WellFormed(Run(commands[..k], le), le) && Linked(View(Run(commands[..k], le)))
    ensures d == DecideOn(View(Run(commands[..k], le)), commands[k].request, commands[k].at, le)
    ensures Lawful(View(Run(commands[..k], le)), d, commands[k].request.id, SuccessorId(commands[k].request))
    ensures View(Run(commands[..k + 1], le)) == Apply(View(Run(commands[..k], le)), d)
    ensures WellFormed(Run(commands[..k + 1], le), le)
  {
    assert commands[..k + 1][..k] == commands[..k];
    var s := Run(commands[..k], le);
    d := DecideOn(View(s), commands[k].request, commands[k].at, le);
    StepRefinesMap(s, commands[k].request, commands[k].at, le);
    DecisionIsLawful(View(s), commands[k].request, commands[k].at, le);
  }

  lemma {:induction false} PrefixIsLinked(commands: seq<Command>, k: nat, le: Compare)
    requires TotalPreorder(le) && k <= |commands|
    ensures WellFormed(Run(commands[..k], le), le) && Linked(View(Run(commands[..k], le)))
  {
    if k == 0 {
      assert commands[..0] == [];
    } else {
      PrefixIsLinked(commands, k - 1, le);
      var d := NextStep(commands, k - 1, le);
      LawfulKeepsLinks(View(Run(commands[..k - 1], le)), d, commands[k - 1].request.id,
                       SuccessorId(commands[k - 1].request));
    }
  }

  lemma RunIsLinked(commands: seq<Command>, le: Compare)
    requires TotalPreorder(le)
    ensures WellFormed(Run(commands, le), le) && Linked(View(Run(commands, le)))
  {
    PrefixIsLinked(commands, |commands|, le);
    assert commands[..|commands|] == commands;
  }

  /** Over every run from the empty store, stated on the list: ids unique and sorted, every successor a different
      record that lists the superseded one, every listed id present. */
  lemma RunInvariant(commands: seq<Command>, le: Compare)
    requires TotalPreorder(le)
    ensures var s := Run(commands, le);
            UniqueIds(s) && Sorted(s, By(PatternId(), le)) && Read(s, le) == s &&
            (forall p | p in s && p.supersededBy.Some? ::
               var q := Find(s, p.supersededBy.value); q.Some? && q.value.id != p.id && p.id in q.value.supersedes) &&
            (forall p, x | p in s && x in p.supersedes :: Find(s, x).Some?) &&
            (forall p | p in s && p.status == Superseded :: p.supersededBy.Some?)
  {
    RunIsLinked(commands, le);
    ReadIsIdentity(Run(commands, le), le);
    ViewSpec(Run(commands, le));
  }

  lemma NextGrows(commands: seq<Command>, k: nat, le: Compare)
    requires TotalPreorder(le) && k < |commands|
    ensures Grows(View(Run(commands[..k], le)), View(Run(commands[..k + 1], le)))
  {
    PrefixIsLinked(commands, k, le);
    var d := NextStep(commands, k, le);
    LawfulKeepsLinks(View(Run(commands[..k], le)), d, commands[k].request.id, SuccessorId(commands[k].request));
  }

  /** The records before the first command of a run and after each. */
  ghost function Trace(commands: seq<Command>, le: Compare): seq<Records> {
    seq(|commands| + 1, k requires 0 <= k <= |commands| => View(Run(commands[..k], le)))
  }

  ghost predicate GrowsAt(t: seq<Records>, k: int)
    requires 0 <= k < |t| - 1
  {
    Grows(t[k], t[k + 1])
  }

  lemma {:induction false} GrowsAlong(t: seq<Records>, j: nat, n: nat)
    requires j <= n < |t| && forall k | 0 <= k < |t| - 1 :: GrowsAt(t, k)
    ensures Grows(t[j], t[n])
  {
    if j < n {
      GrowsAlong(t, j, n - 1);
      assert GrowsAt(t, n - 1);
    }
  }

  /** However a run goes on, every record stays, with the content and fingerprint it was promoted with. */
  lemma NothingIsLost(commands: seq<Command>, j: nat, n: nat, le: Compare)
    requires TotalPreorder(le) && j <= n <= |commands|
    ensures Grows(View(Run(commands[..j], le)), View(Run(commands[..n], le)))
  {
    var t := Trace(commands, le);
    forall k | 0 <= k < |t| - 1 ensures GrowsAt(t, k) { NextGrows(commands, k, le); }
    GrowsAlong(t, j, n);
  }

  // ----- Repeating, and locality -----

  /** After a decision was carried out, the same request decides to keep or is rejected. */
  lemma DecidedTwice(m: Records, r: Request, at: string, again: string, le: Compare)
    requires TotalPreorder(le) && Keyed(m)
    ensures var d := DecideOn(m, r, at, le);
            var d' := DecideOn(Apply(m, d), r, again, le);
            d'.Keep? || d'.Reject?
  {
    var d := DecideOn(m, r, at, le);
    DecisionIsLawful(m, r, at, le);
    match d
    case WriteOne(next) => assert Apply(m, d)[r.id] == next;
    case WriteBoth(a, b) =>
      assert Apply(m, d)[r.id] == a && Apply(m, d)[SuccessorId(r)] == b;
      assert a.status == Superseded && a.supersededBy == Some(SuccessorId(r)) && a.id in b.supersedes;
    case _ =>
  }

  lemma KeepsAreNoWrites(m: Records, r: Request, at: string, le: Compare)
    ensures DecideOn(m, r, at, le).Keep? ==> DecideOn(m, r, at, le).outcome != Written
  {
  }

  /** A request made twice, at whatever times, leaves what it left the first time, and the second is no write. */
  lemma RepeatIsNoop(s: Store, r: Request, at: string, again: string, le: Compare)
    requires TotalPreorder(le) && WellFormed(s, le)
    ensures var first := Step(s, r, at, le).0;
            Step(first, r, again, le).0 == first && Step(first, r, again, le).1 != Written
  {
    ViewSpec(s);
    StepRefinesMap(s, r, at, le);
    var first := Step(s, r, at, le).0;
    DecidedTwice(View(s), r, at, again, le);
    StepRefinesMap(first, r, again, le);
    KeepsAreNoWrites(View(first), r, again, le);
  }

  /** Promoting a known candidate again changes nothing, whatever became of the pattern; a changed one is a conflict. */
  lemma PromoteNeverReactivates(s: Store, r: Request, at: string, le: Compare)
    requires TotalPreorder(le) && WellFormed(s, le) && r.Promote? && Find(s, r.id).Some?
    ensures Step(s, r, at, le) ==
            (s, if Find(s, r.id).value.fingerprint == r.fingerprint then Noop else Conflict)
  {
    ReadIsIdentity(s, le);
  }

  lemma FindIsLookup(s: Store, id: string)
    requires UniqueIds(s)
    ensures Find(s, id) == Lookup(View(s), id)
  {
    ViewSpec(s);
  }

  lemma WrittenElsewhere(m: Records, d: Decision, r: Request, at: string, id: string, le: Compare)
    requires Keyed(m) && Writes(m, d, r, at, le) && id != r.id && !(r.Supersede? && id == SuccessorId(r))
    ensures Lookup(Apply(m, d), id) == Lookup(m, id)
  {
    WrittenIds(m, d, r, at, le);
  }

  /** Only the named record changes, and for a supersede its successor. */
  lemma OnlyNamedChange(s: Store, r: Request, at: string, id: string, le: Compare)
    requires TotalPreorder(le) && WellFormed(s, le)
    requires id != r.id && !(r.Supersede? && id == SuccessorId(r))
    ensures Find(Step(s, r, at, le).0, id) == Find(s, id)
  {
    StepRefinesMap(s, r, at, le);
    FindIsLookup(s, id);
    FindIsLookup(Step(s, r, at, le).0, id);
    ViewIsNormal(s, le);
    DecisionWrites(View(s), r, at, le);
    WrittenElsewhere(View(s), DecideOn(View(s), r, at, le), r, at, id, le);
  }

  // ----- Supersession chains -----

  /** Following supersededBy from id for at most n steps ends at a record that is not superseded. */
  ghost predicate Ends(m: Records, id: string, n: nat)
    decreases n
  {
    id in m &&
    (m[id].status == Superseded ==> n > 0 && m[id].supersededBy.Some? && Ends(m, m[id].supersededBy.value, n - 1))
  }

  ghost predicate Terminates(m: Records) {
    forall id | id in m :: exists n: nat :: Ends(m, id, n)
  }

  /** Following supersededBy from id for at most n steps meets x. */
  ghost predicate Meets(m: Records, id: string, x: string, n: nat)
    decreases n
  {
    id == x ||
    (id in m && m[id].status == Superseded && m[id].supersededBy.Some? && n > 0 &&
     Meets(m, m[id].supersededBy.value, x, n - 1))
  }

  ghost predicate ChainMeets(m: Records, id: string, x: string) {
    exists n: nat :: Meets(m, id, x, n)
  }

  /** What a caller can check before a supersede: the successor's own chain does not lead to the pattern superseded. */
  ghost predicate Guarded(m: Records, r: Request, at: string, le: Compare) {
    DecideOn(m, r, at, le).WriteBoth? ==> !ChainMeets(m, SuccessorId(r), r.id)
  }

  /** A record that agrees in what a chain looks at. */
  ghost predicate SameChain(a: Pattern, b: Pattern) {
    (a.status == Superseded <==> b.status == Superseded) && a.supersededBy == b.supersededBy
  }

  /** Away from x nothing about chains changed, so a chain that never meets x still ends. */
  lemma {:induction false} EndsAway(m: Records, m': Records, id: string, x: string, n: nat)
    requires forall k | k in m && k != x :: k in m' && SameChain(m[k], m'[k])
    requires Ends(m, id, n) && !Meets(m, id, x, n)
    ensures Ends(m', id, n)
    decreases n
  {
    if m[id].status == Superseded {
      EndsAway(m, m', m[id].supersededBy.value, x, n - 1);
    }
  }

  /** If every chain that reaches x ends from there, every chain that ended before still ends. */
  lemma {:induction false} EndsThrough(m: Records, m': Records, id: string, x: string, n: nat, k: nat) returns (n': nat)
    requires forall k | k in m && k != x :: k in m' && SameChain(m[k], m'[k])
    requires Ends(m', x, k) && Ends(m, id, n)
    ensures Ends(m', id, n')
    decreases n
  {
    if id == x {
      n' := k;
    } else if m[id].status == Superseded {
      n' := EndsThrough(m, m', m[id].supersededBy.value, x, n - 1, k);
      n' := n' + 1;
    } else {
      n' := 0;
    }
  }

  /** A chain that meets x and ends goes on to an end from x, in no more steps. */
  lemma {:induction false} EndsFromMeeting(m: Records, m': Records, id: string, x: string, n: nat, k: nat)
    returns (k': nat)
    requires forall k | k in m && k != x :: k in m' && SameChain(m[k], m'[k])
    requires Meets(m, id, x, n) && Ends(m', id, k)
    ensures k' <= k && Ends(m', x, k')
    decreases n
  {
    if id == x {
      k' := k;
    } else {
      k' := EndsFromMeeting(m, m', m[id].supersededBy.value, x, n - 1, k - 1);
    }
  }

  /** A chain from y that meets x, where x leads straight back to y, has no end. */
  lemma {:induction false} CycleNeverEnds(m: Records, m': Records, x: string, y: string, n: nat, k: nat)
    requires forall k | k in m && k != x :: k in m' && SameChain(m[k], m'[k])
    requires x in m' && m'[x].status == Superseded && m'[x].supersededBy == Some(y)
    requires Meets(m, y, x, n)
    ensures !Ends(m', y, k)
    decreases k
  {
    if Ends(m', y, k) {
      var k' := EndsFromMeeting(m, m', y, x, n, k);
      CycleNeverEnds(m, m', x, y, n, k' - 1);
    }
  }

  /** A supersede keeps every chain finite exactly when the successor's chain does not lead to the superseded
      pattern. */
  lemma SupersedeKeepsChainsIff(m: Records, d: Decision, x: string, y: string)
    requires Linked(m) && Terminates(m) && d.WriteBoth? && Lawful(m, d, x, y)
    ensures Terminates(Apply(m, d)) <==> !ChainMeets(m, y, x)
  {
    var m' := Apply(m, d);
    assert forall k | k in m && k != x :: k in m' && SameChain(m[k], m'[k]);
    assert m'[x] == d.existing;
    if ChainMeets(m, y, x) {
      var n: nat :| Meets(m, y, x, n);
      forall k: nat ensures !Ends(m', y, k) { CycleNeverEnds(m, m', x, y, n, k); }
      assert y in m';
    } else {
      var n: nat :| Ends(m, y, n);
      assert !Meets(m, y, x, n);
      EndsAway(m, m', y, x, n);
      assert Ends(m', x, n + 1);
      AllEnd(m, m', x, n + 1);
    }
  }

  lemma AllEnd(m: Records, m': Records, x: string, n: nat)
    requires Terminates(m) && m'.Keys == m.Keys + {x} && Ends(m', x, n)
    requires forall k | k in m && k != x :: k in m' && SameChain(m[k], m'[k])
    ensures Terminates(m')
  {
    forall id | id in m' ensures exists k: nat :: Ends(m', id, k) {
      if id in m {
        var k: nat :| Ends(m, id, k);
        var k' := EndsThrough(m, m', id, x, k, n);
      }
    }
  }

  lemma OtherStepsKeepChains(m: Records, d: Decision, x: string, y: string)
    requires Linked(m) && Terminates(m) && !d.WriteBoth? && Lawful(m, d, x, y)
    ensures Terminates(Apply(m, d))
  {
    if d.WriteOne? {
      assert Ends(Apply(m, d), x, 0);
      AllEnd(m, Apply(m, d), x, 0);
    }
  }

  ghost predicate ChainsEndAt(commands: seq<Command>, k: int, le: Compare)
    requires 0 <= k <= |commands|
  {
    Terminates(View(Run(commands[..k], le)))
  }

  ghost predicate GuardedAt(commands: seq<Command>, k: int, le: Compare)
    requires 0 <= k < |commands|
  {
    Guarded(View(Run(commands[..k], le)), commands[k].request, commands[k].at, le)
  }

  lemma ChainStep(commands: seq<Command>, k: nat, le: Compare)
    requires TotalPreorder(le) && k < |commands| && ChainsEndAt(commands, k, le)
    ensures ChainsEndAt(commands, k + 1, le) <==> GuardedAt(commands, k, le)
  {
    PrefixIsLinked(commands, k, le);
    var d := NextStep(commands, k, le);
    var m := View(Run(commands[..k], le));
    if d.WriteBoth? {
      SupersedeKeepsChainsIff(m, d, commands[k].request.id, SuccessorId(commands[k].request));
    } else {
      OtherStepsKeepChains(m, d, commands[k].request.id, SuccessorId(commands[k].request));
    }
  }

  lemma {:induction false} GuardedChainsEnd(commands: seq<Command>, n: nat, le: Compare)
    requires TotalPreorder(le) && n <= |commands| && forall k | 0 <= k < n :: GuardedAt(commands, k, le)
    ensures ChainsEndAt(commands, n, le)
  {
    if n == 0 {
      assert commands[..0] == [];
    } else {
      GuardedChainsEnd(commands, n - 1, le);
      ChainStep(commands, n - 1, le);
    }
  }

  /** Over a whole run: every chain ends after every command exactly when every supersede was guarded. */
  lemma ChainsEndIffGuarded(commands: seq<Command>, n: nat, le: Compare)
    requires TotalPreorder(le) && n <= |commands|
    ensures (forall k | 0 <= k <= n :: ChainsEndAt(commands, k, le)) <==>
            (forall k | 0 <= k < n :: GuardedAt(commands, k, le))
  {
    if forall k | 0 <= k <= n :: ChainsEndAt(commands, k, le) {
      forall k | 0 <= k < n ensures GuardedAt(commands, k, le) {
        assert ChainsEndAt(commands, k, le) && ChainsEndAt(commands, k + 1, le);
        ChainStep(commands, k, le);
      }
    }
    if forall k | 0 <= k < n :: GuardedAt(commands, k, le) {
      forall k | 0 <= k <= n ensures ChainsEndAt(commands, k, le) { GuardedChainsEnd(commands, k, le); }
    }
  }

  /** The simple guard: a successor that is not itself superseded. */
  lemma LiveSuccessorIsGuarded(m: Records, r: Request, at: string, le: Compare)
    requires Keyed(m) && DecideOn(m, r, at, le).WriteBoth? && m[SuccessorId(r)].status != Superseded
    ensures Guarded(m, r, at, le)
  {
    DecisionWrites(m, r, at, le);
    forall n: nat ensures !Meets(m, SuccessorId(r), r.id, n) { }
  }

  // ----- Audit logs -----

  /** The events are a path of statuses: from nothing to active, each move from where the last one led, to the status
      now. */
  ghost predicate Connected(p: Pattern) {
    p.events != [] &&
    p.events[0].from == None && p.events[0].to == Active &&
    (forall i | 0 < i < |p.events| :: p.events[i].from == Some(p.events[i - 1].to)) &&
    p.events[|p.events| - 1].to == p.status
  }

  ghost predicate AllConnected(m: Records) { forall id | id in m :: Connected(m[id]) }

  ghost predicate LogsExtended(a: Records, b: Records) {
    forall id | id in a :: id in b && a[id].events <= b[id].events
  }

  ghost predicate Before(t: string, at: string, le: Compare) { le(t, at) && !le(at, t) }

  /** Every recorded event is earlier than at. */
  ghost predicate AllBefore(m: Records, at: string, le: Compare) {
    forall id, e | id in m && e in m[id].events :: Before(e.at, at, le)
  }

  /** A later event is appended at the end, whatever it says. */
  lemma AppendLater(events: seq<Event>, e: Event, le: Compare)
    requires TotalPreorder(le) && Sorted(events, EventOrder(le)) && forall f | f in events :: Before(f.at, e.at, le)
    ensures Sort(events + [e], EventOrder(le)) == events + [e]
  {
    EventOrderIsPreorder(le);
    if events != [] {
      var last := events[|events| - 1];
      assert last in events;
      assert EventOrder(le)(last, e);
    }
    SortAppend(events, e, EventOrder(le));
  }

  ghost predicate LiveSuccessor(m: Records, r: Request, at: string, le: Compare) {
    DecideOn(m, r, at, le).WriteBoth? ==> m[SuccessorId(r)].status != Superseded
  }

  /** q is p with one more event at the end, made at the given time and leaving p's status. */
  ghost predicate Extends(p: Pattern, q: Pattern, at: string, to: Status) {
    |q.events| == |p.events| + 1 && q.events[..|p.events|] == p.events &&
    var e := q.events[|p.events|]; e.at == at && e.from == Some(p.status) && e.to == to
  }

  /** What a decision does to the logs: one event at the end of each record it writes. */
  ghost predicate LawfulLogs(m: Records, d: Decision, x: string, y: string, at: string) {
    match d
    case WriteOne(next) =>
      if x in m then Extends(m[x], next, at, next.status)
      else Connected(next) && |next.events| == 1 && next.events[0].at == at
    case WriteBoth(a, b) =>
      x in m && y in m && Extends(m[x], a, at, Superseded) && Extends(m[y], b, at, Active) &&
      b.status == (if m[y].status == Superseded then Superseded else Active)
    case _ => true
  }

  lemma AppendExtends(p: Pattern, q: Pattern, e: Event, le: Compare)
    requires TotalPreorder(le) && NormalRecord(p, le) && forall f | f in p.events :: Before(f.at, e.at, le)
    requires q.events == p.events && e.from == Some(p.status)
    ensures Extends(p, AppendEvent(q, e, le), e.at, e.to)
  {
    AppendLater(p.events, e, le);
  }

  lemma DecisionLogs(m: Records, r: Request, at: string, le: Compare)
    requires TotalPreorder(le) && Keyed(m) && (forall id | id in m :: NormalRecord(m[id], le)) && AllBefore(m, at, le)
    ensures LawfulLogs(m, DecideOn(m, r, at, le), r.id, SuccessorId(r), at)
  {
    if r.id in m {
      if r.Supersede? {
        if SuccessorId(r) in m {
          SupersededLog(m[r.id], SuccessorId(r), r.reason, at, le);
          SuccessorLog(m[SuccessorId(r)], r.id, r.reason, at, le);
          SupersedeLogs(m, r, at, le);
        }
      } else if !r.Promote? {
        PlainLogs(m[r.id], r.reason, at, le);
        PlainDecision(m, r, at, le);
      }
    }
  }

  lemma SupersedeLogs(m: Records, r: Request, at: string, le: Compare)
    requires Keyed(m) && r.Supersede? && r.id in m && SuccessorId(r) in m
    requires Extends(m[r.id], SupersededRecord(m[r.id], SuccessorId(r), r.reason, at, le), at, Superseded)
    requires Extends(m[SuccessorId(r)], SuccessorRecord(m[SuccessorId(r)], r.id, r.reason, at, le), at, Active)
    ensures LawfulLogs(m, DecideOn(m, r, at, le), r.id, SuccessorId(r), at)
  {
  }

  lemma PlainDecision(m: Records, r: Request, at: string, le: Compare)
    requires !r.Supersede? && !r.Promote? && r.id in m
    requires Extends(m[r.id], RetiredRecord(m[r.id], r.reason, at, le), at, Retired)
    requires Extends(m[r.id], DemotedRecord(m[r.id], r.reason, at, le), at, Demoted)
    requires Extends(m[r.id], RecalledRecord(m[r.id], r.reason, at, le), at, Active)
    ensures LawfulLogs(m, DecideOn(m, r, at, le), r.id, SuccessorId(r), at)
  {
  }

  lemma PlainLogs(p: Pattern, reason: string, at: string, le: Compare)
    requires TotalPreorder(le) && NormalRecord(p, le) && forall f | f in p.events :: Before(f.at, at, le)
    ensures Extends(p, RetiredRecord(p, reason, at, le), at, Retired)
    ensures Extends(p, DemotedRecord(p, reason, at, le), at, Demoted)
    ensures Extends(p, RecalledRecord(p, reason, at, le), at, Active)
  {
    AppendExtends(p, p.(status := Retired, retiredAt := Some(at), retirementReason := Some(reason)),
                  Event(RetireOp, at, reason, Some(p.status), Retired), le);
    AppendExtends(p, p.(status := Demoted, demotedAt := Some(at), demotionReason := Some(reason)),
                  Event(DemoteOp, at, reason, Some(p.status), Demoted), le);
    AppendExtends(p, p.(status := Active, recalledAt := Some(at), recallReason := Some(reason)),
                  Event(RecallOp, at, reason, Some(p.status), Active), le);
  }

  lemma SupersededLog(p: Pattern, target: string, reason: string, at: string, le: Compare)
    requires TotalPreorder(le) && NormalRecord(p, le) && forall f | f in p.events :: Before(f.at, at, le)
    ensures Extends(p, SupersededRecord(p, target, reason, at, le), at, Superseded)
  {
    AppendExtends(p,
                  p.(status := Superseded, supersededBy := Some(target), retiredAt := None, retirementReason := None),
                  Event(SupersedeOp, at, reason, Some(p.status), Superseded), le);
  }

  lemma SuccessorLog(q: Pattern, id: string, reason: string, at: string, le: Compare)
    requires TotalPreorder(le) && NormalRecord(q, le) && forall f | f in q.events :: Before(f.at, at, le)
    ensures Extends(q, SuccessorRecord(q, id, reason, at, le), at, Active)
  {
    AppendExtends(q, q.(status := if q.status == Retired || q.status == Demoted then Active else q.status,
                        supersedes := SortedSet(q.supersedes + [id], le)),
                  Event(RecallOp, at, "Activated while superseding " + id + ": " + reason, Some(q.status), Active), le);
  }

  /** One more event keeps a log connected exactly when it leads to the status the record now has. */
  lemma ExtendedLog(p: Pattern, q: Pattern, at: string, to: Status)
    requires Connected(p) && Extends(p, q, at, to)
    ensures Connected(q) <==> to == q.status
  {
    var n := |p.events|;
    assert forall i | 0 <= i < n :: q.events[i] == q.events[..n][i];
  }

  lemma OneKeepsLogs(m: Records, next: Pattern, x: string, at: string)
    requires LawfulOne(m, next, x) && LawfulLogs(m, WriteOne(next), x, x, at)
    ensures LogsExtended(m, m[x := next])
    ensures AllConnected(m) ==> AllConnected(m[x := next])
  {
    if x in m && Connected(m[x]) { ExtendedLog(m[x], next, at, next.status); }
  }

  lemma BothKeepLogsIff(m: Records, a: Pattern, b: Pattern, x: string, y: string, at: string)
    requires LawfulBoth(m, a, b, x, y) && LawfulLogs(m, WriteBoth(a, b), x, y, at)
    ensures LogsExtended(m, m[x := a][y := b])
    ensures AllConnected(m) ==> (AllConnected(m[x := a][y := b]) <==> m[y].status != Superseded)
  {
    var m' := m[x := a][y := b];
    assert m'[x] == a && m'[y] == b;
    if AllConnected(m) {
      ExtendedLog(m[x], a, at, Superseded);
      ExtendedLog(m[y], b, at, Active);
      assert forall id | id in m && id != x && id != y :: m'[id] == m[id];
    }
  }

  /** One later command extends the logs, and keeps them connected exactly when a superseding pattern is not itself
      superseded. */
  lemma StepKeepsLogsIff(m: Records, d: Decision, x: string, y: string, at: string)
    requires Lawful(m, d, x, y) && LawfulLogs(m, d, x, y, at)
    ensures LogsExtended(m, Apply(m, d))
    ensures AllConnected(m) ==> (AllConnected(Apply(m, d)) <==> (d.WriteBoth? ==> m[y].status != Superseded))
  {
    match d
    case WriteOne(next) => OneKeepsLogs(m, next, x, at);
    case WriteBoth(a, b) => BothKeepLogsIff(m, a, b, x, y, at);
    case _ =>
  }

  /** Every event of an extended record is an old one or the one added. */
  lemma ExtendedEvents(p: Pattern, q: Pattern, now: string, to: Status, e: Event)
    requires Extends(p, q, now, to) && e in q.events
    ensures e in p.events || e.at == now
  {
    var i :| 0 <= i < |q.events| && q.events[i] == e;
    if i < |p.events| {
      assert q.events[..|p.events|][i] == p.events[i];
    }
  }

  lemma StepEventsBefore(m: Records, d: Decision, x: string, y: string, now: string, at: string, le: Compare)
    requires Lawful(m, d, x, y) && LawfulLogs(m, d, x, y, now) && AllBefore(m, at, le) && Before(now, at, le)
    ensures AllBefore(Apply(m, d), at, le)
  {
    var m' := Apply(m, d);
    forall id, e | id in m' && e in m'[id].events ensures Before(e.at, at, le) {
      if id in m && m'[id] != m[id] {
        ExtendedEvents(m[id], m'[id], now,
                       if d.WriteOne? then d.next.status else if id == x then Superseded else Active, e);
      }
    }
  }

  ghost predicate Increasing(commands: seq<Command>, le: Compare) {
    forall i, j | 0 <= i < j < |commands| :: Before(commands[i].at, commands[j].at, le)
  }

  lemma ViewIsNormal(s: Store, le: Compare)
    requires WellFormed(s, le)
    ensures Keyed(View(s)) && forall id | id in View(s) :: NormalRecord(View(s)[id], le)
  {
    ViewSpec(s);
  }

  lemma {:induction false} EventsOfRun(commands: seq<Command>, n: nat, at: string, le: Compare)
    requires TotalPreorder(le) && n <= |commands| && Increasing(commands, le)
    requires forall i | 0 <= i < n :: Before(commands[i].at, at, le)
    ensures AllBefore(View(Run(commands[..n], le)), at, le)
    decreases n, 0
  {
    if n == 0 {
      assert commands[..0] == [];
    } else {
      var k := n - 1;
      EventsOfRun(commands, k, at, le);
      var d := NextLogs(commands, k, le);
      StepEventsBefore(View(Run(commands[..k], le)), d, commands[k].request.id, SuccessorId(commands[k].request),
                       commands[k].at, at, le);
    }
  }

  /** The next store of a run with increasing timestamps, and what it did to the logs. */
  lemma {:induction false} NextLogs(commands: seq<Command>, k: nat, le: Compare) returns (d: Decision)
    requires TotalPreorder(le) && k < |commands| && Increasing(commands, le)
    ensures d == DecideOn(View(Run(commands[..k], le)), commands[k].request, commands[k].at, le)
    ensures Lawful(View(Run(commands[..k], le)), d, commands[k].request.id, SuccessorId(commands[k].request))
    ensures LawfulLogs(View(Run(commands[..k], le)), d, commands[k].request.id, SuccessorId(commands[k].request),
                       commands[k].at)
    ensures View(Run(commands[..k + 1], le)) == Apply(View(Run(commands[..k], le)), d)
    decreases k, 1
  {
    PrefixIsLinked(commands, k, le);
    d := NextStep(commands, k, le);
    EventsOfRun(commands, k, commands[k].at, le);
    ViewIsNormal(Run(commands[..k], le), le);
    DecisionLogs(View(Run(commands[..k], le)), commands[k].request, commands[k].at, le);
  }

  ghost predicate LogsConnectedAt(commands: seq<Command>, k: int, le: Compare)
    requires 0 <= k <= |commands|
  {
    AllConnected(View(Run(commands[..k], le)))
  }

  ghost predicate LiveSuccessorAt(commands: seq<Command>, k: int, le: Compare)
    requires 0 <= k < |commands|
  {
    LiveSuccessor(View(Run(commands[..k], le)), commands[k].request, commands[k].at, le)
  }

  lemma LogStep(commands: seq<Command>, k: nat, le: Compare)
    requires TotalPreorder(le) && Increasing(commands, le) && k < |commands| && LogsConnectedAt(commands, k, le)
    ensures LogsConnectedAt(commands, k + 1, le) <==> LiveSuccessorAt(commands, k, le)
  {
    var d := NextLogs(commands, k, le);
    StepKeepsLogsIff(View(Run(commands[..k], le)), d, commands[k].request.id, SuccessorId(commands[k].request),
                     commands[k].at);
  }

  lemma {:induction false} LiveSuccessorsConnect(commands: seq<Command>, n: nat, le: Compare)
    requires TotalPreorder(le) && Increasing(commands, le) && n <= |commands|
    requires forall k | 0 <= k < n :: LiveSuccessorAt(commands, k, le)
    ensures LogsConnectedAt(commands, n, le)
  {
    if n == 0 {
      assert commands[..0] == [];
    } else {
      LiveSuccessorsConnect(commands, n - 1, le);
      LogStep(commands, n - 1, le);
    }
  }

  /** With strictly increasing timestamps: every audit log is connected after every command exactly when no supersede
      named a successor that was itself superseded, although the logs are re-sorted on every read and append. */
  lemma LogsConnectedIff(commands: seq<Command>, n: nat, le: Compare)
    requires TotalPreorder(le) && Increasing(commands, le) && n <= |commands|
    ensures (forall k | 0 <= k <= n :: LogsConnectedAt(commands, k, le)) <==>
            (forall k | 0 <= k < n :: LiveSuccessorAt(commands, k, le))
  {
    if forall k | 0 <= k <= n :: LogsConnectedAt(commands, k, le) {
      forall k | 0 <= k < n ensures LiveSuccessorAt(commands, k, le) {
        assert LogsConnectedAt(commands, k, le) && LogsConnectedAt(commands, k + 1, le);
        LogStep(commands, k, le);
      }
    }
    if forall k | 0 <= k < n :: LiveSuccessorAt(commands, k, le) {
      forall k | 0 <= k <= n ensures LogsConnectedAt(commands, k, le) { LiveSuccessorsConnect(commands, k, le); }
    }
  }

  lemma NextExtends(commands: seq<Command>, k: nat, le: Compare)
    requires TotalPreorder(le) && Increasing(commands, le) && k < |commands|
    ensures LogsExtended(View(Run(commands[..k], le)), View(Run(commands[..k + 1], le)))
  {
    var d := NextLogs(commands, k, le);
    StepKeepsLogsIff(View(Run(commands[..k], le)), d, commands[k].request.id, SuccessorId(commands[k].request),
                     commands[k].at);
  }

  ghost predicate ExtendedAt(t: seq<Records>, k: int)
    requires 0 <= k < |t| - 1
  {
    LogsExtended(t[k], t[k + 1])
  }

  lemma {:induction false} ExtendedAlong(t: seq<Records>, j: nat, n: nat)
    requires j <= n < |t| && forall k | 0 <= k < |t| - 1 :: ExtendedAt(t, k)
    ensures LogsExtended(t[j], t[n])
  {
    if j < n {
      ExtendedAlong(t, j, n - 1);
      assert ExtendedAt(t, n - 1);
    }
  }

  /** With strictly increasing timestamps an audit log is only ever extended. */
  lemma LogsOnlyGrow(commands: seq<Command>, j: nat, n: nat, le: Compare)
    requires TotalPreorder(le) && Increasing(commands, le) && j <= n <= |commands|
    ensures LogsExtended(View(Run(commands[..j], le)), View(Run(commands[..n], le)))
  {
    var t := Trace(commands, le);
    forall k | 0 <= k < |t| - 1 ensures ExtendedAt(t, k) { NextExtends(commands, k, le); }
    ExtendedAlong(t, j, n);
  }

  // ----- Both guards are needed: two supersedes that point at each other -----

  /** Two patterns promoted, then each superseded by the other. */
  function CycleCommands(a: string, b: string, at: seq<string>): (c: seq<Command>)
    requires |at| == 4
    ensures |c| == 4
  {
    [Command(Promote(a, "fingerprint", "content"), at[0]), Command(Promote(b, "fingerprint", "content"), at[1]),
     Command(Supersede(a, "newer", Some(b)), at[2]), Command(Supersede(b, "back", Some(a)), at[3])]
  }

  lemma NewId(m: Records, r: Request, at: string, le: Compare)
    requires r.Promote? && r.id !in m
    ensures Apply(m, DecideOn(m, r, at, le)) == m[r.id := NewPattern(r, at)]
  {
  }

  /** What promoting a new id makes of the records. */
  lemma Promoted(commands: seq<Command>, k: nat, le: Compare)
    requires TotalPreorder(le) && k < |commands| && commands[k].request.Promote?
    requires commands[k].request.id !in View(Run(commands[..k], le))
    ensures View(Run(commands[..k + 1], le)) ==
            View(Run(commands[..k], le))[commands[k].request.id := NewPattern(commands[k].request, commands[k].at)]
  {
    PrefixIsLinked(commands, k, le);
    var d := NextStep(commands, k, le);
    NewId(View(Run(commands[..k], le)), commands[k].request, commands[k].at, le);
  }

  lemma FirstSupersede(m: Records, r: Request, at: string, le: Compare)
    requires Keyed(m) && r.Supersede? && r.id in m && SuccessorId(r) in m && SuccessorId(r) != r.id &&
             SuccessorId(r) != ""
    requires m[r.id].status == Active
    ensures DecideOn(m, r, at, le).WriteBoth?
  {
  }

  lemma SuccessorStaysActive(m: Records, r: Request, at: string, le: Compare)
    requires Keyed(m) && DecideOn(m, r, at, le).WriteBoth? && m[SuccessorId(r)].status == Active
    ensures DecideOn(m, r, at, le).successor.status == Active
  {
  }

  ghost predicate BothActive(m: Records, a: string, b: string) {
    a in m && b in m && m[a].status == Active && m[b].status == Active
  }

  /** a points to b, which is still live. */
  ghost predicate PointsToLive(m: Records, a: string, b: string) {
    a in m && b in m && m[a].status == Superseded && m[a].supersededBy == Some(b) && m[b].status == Active
  }

  /** What superseding a live pattern by a live one makes of the records. */
  lemma SupersededOnce(m: Records, d: Decision, r: Request, at: string, le: Compare)
    requires TotalPreorder(le) && Keyed(m) && r.Supersede? && d == DecideOn(m, r, at, le)
    requires BothActive(m, r.id, SuccessorId(r)) && SuccessorId(r) != r.id && SuccessorId(r) != ""
    ensures PointsToLive(Apply(m, d), r.id, SuccessorId(r))
  {
    FirstSupersede(m, r, at, le);
    SuccessorStaysActive(m, r, at, le);
    DecisionIsLawful(m, r, at, le);
  }

  lemma BothPromoted(c: seq<Command>, a: string, b: string, le: Compare)
    requires TotalPreorder(le) && |c| >= 2 && a != b
    requires c[0].request.Promote? && c[0].request.id == a && c[1].request.Promote? && c[1].request.id == b
    ensures BothActive(View(Run(c[..2], le)), a, b)
  {
    assert Run(c[..0], le) == [];
    Promoted(c, 0, le);
    Promoted(c, 1, le);
  }

  lemma FirstSuperseded(commands: seq<Command>, k: nat, le: Compare)
    requires TotalPreorder(le) && k < |commands|
    requires var r := commands[k].request;
             r.Supersede? && SuccessorId(r) != r.id && SuccessorId(r) != "" &&
             BothActive(View(Run(commands[..k], le)), r.id, SuccessorId(r))
    ensures PointsToLive(View(Run(commands[..k + 1], le)), commands[k].request.id, SuccessorId(commands[k].request))
  {
    PrefixIsLinked(commands, k, le);
    var d := NextStep(commands, k, le);
    SupersededOnce(View(Run(commands[..k], le)), d, commands[k].request, commands[k].at, le);
  }

  lemma BackIsUnguarded(m: Records, r: Request, at: string, le: Compare)
    requires Keyed(m) && r.Supersede? && PointsToLive(m, SuccessorId(r), r.id) && SuccessorId(r) != r.id &&
             SuccessorId(r) != ""
    ensures !Guarded(m, r, at, le) && !LiveSuccessor(m, r, at, le)
  {
    FirstSupersede(m, r, at, le);
    assert Meets(m, r.id, r.id, 0);
    assert Meets(m, SuccessorId(r), r.id, 1);
  }

  /** A supersede of two live patterns, then the supersede the other way round: the second meets neither guard. */
  lemma ClosesCycle(commands: seq<Command>, k: nat, le: Compare)
    requires TotalPreorder(le) && k + 1 < |commands|
    requires var r := commands[k].request;
             r.Supersede? && SuccessorId(r) != r.id && SuccessorId(r) != "" &&
             BothActive(View(Run(commands[..k], le)), r.id, SuccessorId(r))
    requires var r := commands[k + 1].request;
             r.Supersede? && r.id == SuccessorId(commands[k].request) && SuccessorId(r) == commands[k].request.id &&
             SuccessorId(r) != ""
    ensures !GuardedAt(commands, k + 1, le) && !LiveSuccessorAt(commands, k + 1, le)
  {
    FirstSuperseded(commands, k, le);
    PrefixIsLinked(commands, k + 1, le);
    BackIsUnguarded(View(Run(commands[..k + 1], le)), commands[k + 1].request, commands[k + 1].at, le);
  }

  lemma UnguardedBreaksChains(commands: seq<Command>, k: nat, le: Compare)
    requires TotalPreorder(le) && k < |commands|
    ensures !GuardedAt(commands, k, le) ==> !(forall j | 0 <= j <= |commands| :: ChainsEndAt(commands, j, le))
  {
    ChainsEndIffGuarded(commands, |commands|, le);
  }

  /** Two promotions, then a supersede each way. */
  ghost predicate NamesEachOther(c: seq<Command>, a: string, b: string) {
    |c| == 4 && c[0].request.Promote? && c[0].request.id == a && c[1].request.Promote? && c[1].request.id == b &&
    c[2].request.Supersede? && c[2].request.id == a && SuccessorId(c[2].request) == b &&
    c[3].request.Supersede? && c[3].request.id == b && SuccessorId(c[3].request) == a
  }

  lemma LastIsUnguarded(c: seq<Command>, a: string, b: string, le: Compare)
    requires TotalPreorder(le) && a != b && a != "" && b != "" && NamesEachOther(c, a, b)
    ensures !GuardedAt(c, 3, le) && !LiveSuccessorAt(c, 3, le)
  {
    BothPromoted(c, a, b, le);
    ClosesCycle(c, 2, le);
  }

  /** Two supersedes that name each other make a chain without end, and log a move to active for a record that stays
      superseded: the fourth command meets neither guard. */
  lemma CycleWithoutGuards(a: string, b: string, at: seq<string>, le: Compare)
    requires TotalPreorder(le) && |at| == 4 && a != b && a != "" && b != "" && Trim(a) == a && Trim(b) == b
    ensures !GuardedAt(CycleCommands(a, b, at), 3, le) && !LiveSuccessorAt(CycleCommands(a, b, at), 3, le)
    ensures !(forall k | 0 <= k <= 4 :: ChainsEndAt(CycleCommands(a, b, at), k, le))
  {
    LastIsUnguarded(CycleCommands(a, b, at), a, b, le);
    UnguardedBreaksChains(CycleCommands(a, b, at), 3, le);
  }

  /** With increasing timestamps the log of one of the two is then broken. */
  lemma CycleBreaksLogs(a: string, b: string, at: seq<string>, le: Compare)
    requires TotalPreorder(le) && |at| == 4 && a != b && a != "" && b != "" && Trim(a) == a && Trim(b) == b
    requires Increasing(CycleCommands(a, b, at), le)
    ensures !(forall k | 0 <= k <= 4 :: LogsConnectedAt(CycleCommands(a, b, at), k, le))
  {
    CycleWithoutGuards(a, b, at, le);
    LogsConnectedIff(CycleCommands(a, b, at), 4, le);
  }

  /** The ids "a" and "b" are such a pair. */
  lemma CycleExists(le: Compare)
    requires TotalPreorder(le)
    ensures !(forall k | 0 <= k <= 4 :: ChainsEndAt(CycleCommands("a", "b", ["1", "2", "3", "4"]), k, le))
  {
    TrimSolid("a");
    TrimSolid("b");
    CycleWithoutGuards("a", "b", ["1", "2", "3", "4"], le);
  }
}
