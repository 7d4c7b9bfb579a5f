/** What every run keeps inside a record: its stamps come from its audit log, and its status goes with them. */
module PatternRecords {
  import opened Text
  import opened Sorting
  import opened Promotion
  import opened PromotionRuns

  ghost predicate Logged(p: Pattern, operation: Operation, at: string, reason: string, to: Status) {
    exists e | e in p.events :: e.operation == operation && e.at == at && e.reason == reason && e.to == to
  }

  /** A time and a reason are set together, and only by an event of the log. */
  ghost predicate Stamped(p: Pattern, operation: Operation, at: Option<string>, reason: Option<string>, to: Status) {
    (at.Some? <==> reason.Some?) && (at.Some? ==> Logged(p, operation, at.value, reason.value, to))
  }

  ghost predicate Documented(p: Pattern) {
    Stamped(p, RetireOp, p.retiredAt, p.retirementReason, Retired) &&
    Stamped(p, DemoteOp, p.demotedAt, p.demotionReason, Demoted) &&
    Stamped(p, RecallOp, p.recalledAt, p.recallReason, Active) &&
    match p.status
    case Active => true
    case Retired => p.retiredAt.Some?
    case Demoted => p.demotedAt.Some?
    case Superseded => p.supersededBy.Some? && p.retiredAt.None?
  }

  lemma AppendedEvents(p: Pattern, e: Event, le: Compare)
    ensures forall f :: f in AppendEvent(p, e, le).events <==> f in p.events || f == e
  {
    SortPermutes(p.events + [e], EventOrder(le));
  }

  lemma StampKept(p: Pattern, q: Pattern, operation: Operation, at: Option<string>, reason: Option<string>, to: Status)
    requires Stamped(p, operation, at, reason, to) && forall e | e in p.events :: e in q.events
    ensures Stamped(q, operation, at, reason, to)
  {
    if at.Some? {
      var e :| e in p.events && e.operation == operation && e.at == at.value && e.reason == reason.value && e.to == to;
      assert e in q.events;
    }
  }

  lemma StampsKept(p: Pattern, q: Pattern)
    requires Documented(p) && forall e | e in p.events :: e in q.events
    ensures Stamped(q, RetireOp, p.retiredAt, p.retirementReason, Retired)
    ensures Stamped(q, DemoteOp, p.demotedAt, p.demotionReason, Demoted)
    ensures Stamped(q, RecallOp, p.recalledAt, p.recallReason, Active)
  {
    StampKept(p, q, RetireOp, p.retiredAt, p.retirementReason, Retired);
    StampKept(p, q, DemoteOp, p.demotedAt, p.demotionReason, Demoted);
    StampKept(p, q, RecallOp, p.recalledAt, p.recallReason, Active);
  }

  lemma RetiredIsDocumented(p: Pattern, reason: string, at: string, le: Compare)
    requires Documented(p)
    ensures Documented(RetiredRecord(p, reason, at, le))
  {
    var e := Event(RetireOp, at, reason, Some(p.status), Retired);
    AppendedEvents(p.(status := Retired, retiredAt := Some(at), retirementReason := Some(reason)), e, le);
    StampsKept(p, RetiredRecord(p, reason, at, le));
    assert e in RetiredRecord(p, reason, at, le).events;
  }

  lemma DemotedIsDocumented(p: Pattern, reason: string, at: string, le: Compare)
    requires Documented(p)
    ensures Documented(DemotedRecord(p, reason, at, le))
  {
    var e := Event(DemoteOp, at, reason, Some(p.status), Demoted);
    AppendedEvents(p.(status := Demoted, demotedAt := Some(at), demotionReason := Some(reason)), e, le);
    StampsKept(p, DemotedRecord(p, reason, at, le));
    assert e in DemotedRecord(p, reason, at, le).events;
  }

  lemma RecalledIsDocumented(p: Pattern, reason: string, at: string, le: Compare)
    requires Documented(p)
    ensures Documented(RecalledRecord(p, reason, at, le))
  {
    var e := Event(RecallOp, at, reason, Some(p.status), Active);
    AppendedEvents(p.(status := Active, recalledAt := Some(at), recallReason := Some(reason)), e, le);
    StampsKept(p, RecalledRecord(p, reason, at, le));
    assert e in RecalledRecord(p, reason, at, le).events;
  }

  lemma SupersededIsDocumented(p: Pattern, target: string, reason: string, at: string, le: Compare)
    requires Documented(p)
    ensures Documented(SupersededRecord(p, target, reason, at, le))
  {
    AppendedEvents(p.(status := Superseded, supersededBy := Some(target), retiredAt := None, retirementReason := None),
                   Event(SupersedeOp, at, reason, Some(p.status), Superseded), le);
    StampsKept(p, SupersededRecord(p, target, reason, at, le));
  }

  lemma SuccessorIsDocumented(q: Pattern, id: string, reason: string, at: string, le: Compare)
    requires Documented(q)
    ensures Documented(SuccessorRecord(q, id, reason, at, le))
  {
    AppendedEvents(q.(status := if q.status == Retired || q.status == Demoted then Active else q.status,
                      supersedes := SortedSet(q.supersedes + [id], le)),
                   Event(RecallOp, at, "Activated while superseding " + id + ": " + reason, Some(q.status), Active),
                   le);
    StampsKept(q, SuccessorRecord(q, id, reason, at, le));
  }

  ghost predicate AllDocumented(m: Records) { forall id | id in m :: Documented(m[id]) }

  lemma PlainIsDocumented(p: Pattern, next: Pattern, reason: string, at: string, le: Compare)
    requires Documented(p) && PlainWrite(p, next, reason, at, le)
    ensures Documented(next)
  {
    RetiredIsDocumented(p, reason, at, le);
    DemotedIsDocumented(p, reason, at, le);
    RecalledIsDocumented(p, reason, at, le);
  }

  lemma WrittenIsDocumented(m: Records, d: Decision, r: Request, at: string, le: Compare)
    requires AllDocumented(m) && Writes(m, d, r, at, le)
    ensures AllDocumented(Apply(m, d))
  {
    match d
    case WriteOne(next) =>
      if !r.Promote? { PlainIsDocumented(m[r.id], next, r.reason, at, le); }
    case WriteBoth(a, b) =>
      SupersededIsDocumented(m[r.id], SuccessorId(r), r.reason, at, le);
      SuccessorIsDocumented(m[SuccessorId(r)], r.id, r.reason, at, le);
    case _ =>
  }

  lemma NextIsDocumented(commands: seq<Command>, k: nat, le: Compare)
    requires TotalPreorder(le) && k < |commands| && AllDocumented(View(Run(commands[..k], le)))
    ensures AllDocumented(View(Run(commands[..k + 1], le)))
  {
    PrefixIsLinked(commands, k, le);
    var d := NextStep(commands, k, le);
    DecisionWrites(View(Run(commands[..k], le)), commands[k].request, commands[k].at, le);
    WrittenIsDocumented(View(Run(commands[..k], le)), d, commands[k].request, commands[k].at, le);
  }

  lemma {:induction false} DocumentedUpTo(commands: seq<Command>, k: nat, le: Compare)
    requires TotalPreorder(le) && k <= |commands|
    ensures AllDocumented(View(Run(commands[..k], le)))
  {
    if k == 0 {
      assert commands[..0] == [];
    } else {
      DocumentedUpTo(commands, k - 1, le);
      NextIsDocumented(commands, k - 1, le);
    }
  }

  /** After every run: each record's retirement, demotion and recall stamps are those of an event in its log, a retired
      or demoted record has its stamp, and a superseded one has a successor and no retirement stamp. */
  lemma RunIsDocumented(commands: seq<Command>, le: Compare)
    requires TotalPreorder(le)
    ensures forall p | p in Run(commands, le) :: Documented(p)
  {
    DocumentedUpTo(commands, |commands|, le);
    assert commands[..|commands|] == commands;
    RunIsLinked(commands, le);
    ViewSpec(Run(commands, le));
  }

  // ----- What each command answers and what it leaves -----

  /** q is the given record, except that its log is that of p with one more event. */
  ghost predicate MovedTo(p: Pattern, q: Pattern, next: Pattern, e: Event) {
    q == next.(events := q.events) && multiset(q.events) == multiset(p.events) + multiset{e}
  }

  /** What the command asks of the record it names: p before, q after. */
  ghost predicate CarriedOut(r: Request, p: Pattern, q: Pattern, at: string) {
    match r
    case Promote(_, _, _) => q == p
    case Retire(_, reason) =>
      MovedTo(p, q, p.(status := Retired, retiredAt := Some(at), retirementReason := Some(reason)),
              Event(RetireOp, at, reason, Some(p.status), Retired))
    case Demote(_, reason) =>
      MovedTo(p, q, p.(status := Demoted, demotedAt := Some(at), demotionReason := Some(reason)),
              Event(DemoteOp, at, reason, Some(p.status), Demoted))
    case Recall(_, reason) =>
      MovedTo(p, q, p.(status := Active, recalledAt := Some(at), recallReason := Some(reason)),
              Event(RecallOp, at, reason, Some(p.status), Active))
    case Supersede(_, reason, successor) =>
      MovedTo(p, q, p.(status := Superseded, supersededBy := Some(Trim(successor.GetOr(""))), retiredAt := None,
                       retirementReason := None),
              Event(SupersedeOp, at, reason, Some(p.status), Superseded))
  }

  /** What superseding x asks of the successor: p before, q after. */
  ghost predicate Activated(p: Pattern, q: Pattern, x: string, reason: string, at: string) {
    MovedTo(p, q, p.(status := if p.status == Superseded then Superseded else Active, supersedes := q.supersedes),
            Event(RecallOp, at, "Activated while superseding " + x + ": " + reason, Some(p.status), Active)) &&
    forall y :: y in q.supersedes <==> y in p.supersedes || y == x
  }

  lemma AppendedIsMoved(p: Pattern, next: Pattern, e: Event, le: Compare)
    requires next.events == p.events
    ensures MovedTo(p, AppendEvent(next, e, le), next, e)
  {
    SortPermutes(p.events + [e], EventOrder(le));
  }

  lemma PlainIsCarriedOut(p: Pattern, reason: string, at: string, le: Compare)
    ensures forall id :: CarriedOut(Retire(id, reason), p, RetiredRecord(p, reason, at, le), at)
    ensures forall id :: CarriedOut(Demote(id, reason), p, DemotedRecord(p, reason, at, le), at)
    ensures forall id :: CarriedOut(Recall(id, reason), p, RecalledRecord(p, reason, at, le), at)
  {
    AppendedIsMoved(p, p.(status := Retired, retiredAt := Some(at), retirementReason := Some(reason)),
                    Event(RetireOp, at, reason, Some(p.status), Retired), le);
    AppendedIsMoved(p, p.(status := Demoted, demotedAt := Some(at), demotionReason := Some(reason)),
                    Event(DemoteOp, at, reason, Some(p.status), Demoted), le);
    AppendedIsMoved(p, p.(status := Active, recalledAt := Some(at), recallReason := Some(reason)),
                    Event(RecallOp, at, reason, Some(p.status), Active), le);
  }

  lemma SupersededIsCarriedOut(p: Pattern, target: string, reason: string, at: string, le: Compare)
    ensures forall id, y | Trim(y) == target ::
              CarriedOut(Supersede(id, reason, Some(y)), p, SupersededRecord(p, target, reason, at, le), at)
  {
    AppendedIsMoved(p,
                    p.(status := Superseded, supersededBy := Some(target), retiredAt := None, retirementReason := None),
                    Event(SupersedeOp, at, reason, Some(p.status), Superseded), le);
  }

  lemma SuccessorIsActivated(p: Pattern, x: string, reason: string, at: string, le: Compare)
    requires TotalPreorder(le)
    ensures Activated(p, SuccessorRecord(p, x, reason, at, le), x, reason, at)
  {
    var next := p.(status := if p.status == Superseded then Superseded else Active,
                   supersedes := SortedSet(p.supersedes + [x], le));
    var e := Event(RecallOp, at, "Activated while superseding " + x + ": " + reason, Some(p.status), Active);
    assert SuccessorRecord(p, x, reason, at, le) == AppendEvent(next, e, le);
    AppendedIsMoved(p, next, e, le);
    SortedSetSpec(p.supersedes + [x], le);
  }

  /** The record of an id after a command, and the answer, on the map. */
  lemma StepOnMap(s: Store, r: Request, at: string, id: string, le: Compare)
    requires TotalPreorder(le) && WellFormed(s, le)
    ensures var (t, outcome) := Step(s, r, at, le);
            var d := DecideOn(View(s), r, at, le);
            Find(s, id) == Lookup(View(s), id) && Find(t, id) == Lookup(Apply(View(s), d), id) &&
            (d.Reject? ==> t == s && outcome == Failed(d.error)) &&
            (d.Keep? ==> t == s && outcome == d.outcome) &&
            (d.WriteOne? || d.WriteBoth? ==> outcome == Written)
  {
    StepRefinesMap(s, r, at, le);
    FindIsLookup(s, id);
    FindIsLookup(Step(s, r, at, le).0, id);
  }

  /** Promoting an unknown id always writes its record, active and with one event; no other command on an unknown id
      does anything but fail. */
  lemma UnknownExactly(s: Store, r: Request, at: string, le: Compare)
    requires TotalPreorder(le) && WellFormed(s, le) && Find(s, r.id) == None
    ensures var (t, outcome) := Step(s, r, at, le);
            match r
            case Promote(id, fingerprint, content) =>
              outcome == Written &&
              Find(t, id) ==
              Some(Pattern(id, fingerprint, content, Active, None, [], None, None, None, None, None, None,
                [Event(PromoteOp, at, "Promoted from reviewed global pattern candidate.", None, Active)]))
            case _ => t == s && outcome == Failed(PatternNotFound)
  {
    StepOnMap(s, r, at, r.id, le);
  }

  /** Retire, demote and recall of a known id: no write exactly if it has that status, and then nothing changes;
      otherwise the record moves to it, with its stamps and one event more. */
  lemma StatusCommandExactly(s: Store, r: Request, at: string, le: Compare)
    requires TotalPreorder(le) && WellFormed(s, le) && Find(s, r.id).Some? && (r.Retire? || r.Demote? || r.Recall?)
    ensures var (t, outcome) := Step(s, r, at, le);
            var p, asked := Find(s, r.id).value, if r.Retire? then Retired else if r.Demote? then Demoted else Active;
            if p.status == asked then t == s && outcome == Noop
            else outcome == Written && Find(t, r.id).Some? && CarriedOut(r, p, Find(t, r.id).value, at)
  {
    StepOnMap(s, r, at, r.id, le);
    ViewIsNormal(s, le);
    PlainIsCarriedOut(Find(s, r.id).value, r.reason, at, le);
  }

  /** What a supersede that is not refused decides about two known records. */
  lemma SupersedeDecided(m: Records, r: Request, at: string, le: Compare)
    requires TotalPreorder(le) && Keyed(m) && r.Supersede? && r.id in m && SuccessorId(r) in m
    requires SuccessorId(r) != "" && SuccessorId(r) != r.id
    ensures var d, p, q := DecideOn(m, r, at, le), m[r.id], m[SuccessorId(r)];
            if p.status == Superseded && p.supersededBy == Some(SuccessorId(r)) && r.id in q.supersedes then
              d == Keep(Noop)
            else
              d.WriteBoth? && d.existing.id == r.id && d.successor.id == SuccessorId(r) &&
              CarriedOut(r, p, d.existing, at) && Activated(q, d.successor, r.id, r.reason, at)
  {
    assert Trim("") == "";
    SupersededIsCarriedOut(m[r.id], SuccessorId(r), r.reason, at, le);
    SuccessorIsActivated(m[SuccessorId(r)], r.id, r.reason, at, le);
  }

  /** Supersede of a known id: the three errors, in this order; no write exactly if the link is there on both sides and
      the status too; otherwise both records are written. */
  lemma SupersedeExactly(s: Store, r: Request, at: string, le: Compare)
    requires TotalPreorder(le) && WellFormed(s, le) && Find(s, r.id).Some? && r.Supersede?
    ensures var (t, outcome) := Step(s, r, at, le);
            var p, y := Find(s, r.id).value, Trim(r.successor.GetOr(""));
            if y == "" then t == s && outcome == Failed(MissingSuccessor)
            else if y == r.id then t == s && outcome == Failed(SelfSupersede)
            else if Find(s, y) == None then t == s && outcome == Failed(SuccessorNotFound)
            else if p.status == Superseded && p.supersededBy == Some(y) && r.id in Find(s, y).value.supersedes then
              t == s && outcome == Noop
            else
              outcome == Written && Find(t, r.id).Some? && CarriedOut(r, p, Find(t, r.id).value, at) &&
              Find(t, y).Some? && Activated(Find(s, y).value, Find(t, y).value, r.id, r.reason, at)
  {
    var y := Trim(r.successor.GetOr(""));
    StepOnMap(s, r, at, r.id, le);
    StepOnMap(s, r, at, y, le);
    ViewIsNormal(s, le);
    assert y == SuccessorId(r) by { assert Trim("") == ""; }
    if y != "" && y != r.id && Find(s, y).Some? { SupersedeDecided(View(s), r, at, le); }
  }

  // ----- The order of the store and of the logs -----

  /** The names that logs are sorted by. */
  lemma EventNames()
    ensures OperationName(PromoteOp) == "promote" && OperationName(SupersedeOp) == "supersede"
    ensures OperationName(RetireOp) == "retire" && OperationName(DemoteOp) == "demote"
    ensures OperationName(RecallOp) == "recall" && StatusName(Active) == "active"
    ensures StatusName(Superseded) == "superseded" && StatusName(Retired) == "retired" &&
            StatusName(Demoted) == "demoted"
  {
  }

  ghost predicate ByTimeThenName(a: Event, b: Event, le: Compare) {
    le(a.at, b.at) &&
    (le(b.at, a.at) ==>
       le(OperationName(a.operation), OperationName(b.operation)) &&
       (le(OperationName(b.operation), OperationName(a.operation)) ==>
          le(StatusName(a.to), StatusName(b.to)) &&
          (le(StatusName(b.to), StatusName(a.to)) ==> le(a.reason, b.reason))))
  }

  /** After every run the records are sorted by id, and the events of each by time, then operation, status and
      reason. */
  lemma RunIsSorted(commands: seq<Command>, le: Compare)
    requires TotalPreorder(le)
    ensures var s := Run(commands, le);
            (forall i, j | 0 <= i < j < |s| :: le(s[i].id, s[j].id) && s[i].id != s[j].id) &&
            (forall p, i, j | p in s && 0 <= i < j < |p.events| :: ByTimeThenName(p.events[i], p.events[j], le))
  {
    RunIsLinked(commands, le);
    var s := Run(commands, le);
    forall i, j | 0 <= i < j < |s| ensures le(s[i].id, s[j].id) { assert By(PatternId(), le)(s[i], s[j]); }
    forall p, i, j | p in s && 0 <= i < j < |p.events| ensures ByTimeThenName(p.events[i], p.events[j], le) {
      assert NormalRecord(p, le) && EventOrder(le)(p.events[i], p.events[j]);
    }
  }

  // ----- Stores that no command wrote -----

  /** The same record with its lists in order. */
  ghost predicate PutInOrder(p: Pattern, q: Pattern, le: Compare) {
    q == p.(supersedes := q.supersedes, events := q.events) && multiset(q.events) == multiset(p.events) &&
    (forall x :: x in q.supersedes <==> x in p.supersedes) &&
    (forall i, j | 0 <= i < j < |q.supersedes| ::
       le(q.supersedes[i], q.supersedes[j]) && q.supersedes[i] != q.supersedes[j]) &&
    (forall i, j | 0 <= i < j < |q.events| :: ByTimeThenName(q.events[i], q.events[j], le))
  }

  lemma NormalizedInOrder(p: Pattern, le: Compare)
    requires TotalPreorder(le)
    ensures PutInOrder(p, Normalized(p, le), le)
  {
    var q := Normalized(p, le);
    SortedSetSpec(p.supersedes, le);
    SortPermutes(p.events, EventOrder(le));
    EventOrderIsPreorder(le);
    SortSorts(p.events, EventOrder(le));
    forall i, j | 0 <= i < j < |q.events| ensures ByTimeThenName(q.events[i], q.events[j], le) {
      assert EventOrder(le)(q.events[i], q.events[j]);
    }
  }

  ghost predicate ComesFrom(q: Pattern, s: Store, le: Compare) { exists p | p in s :: PutInOrder(p, q, le) }

  ghost predicate IsRead(p: Pattern, t: Store, le: Compare) { exists q | q in t :: PutInOrder(p, q, le) }

  /** Reading any store puts its records in the order of their ids and the lists of each in order, and loses none. */
  lemma ReadExactly(s: Store, le: Compare)
    requires TotalPreorder(le)
    ensures var t := Read(s, le);
            |t| == |s| && (forall i, j | 0 <= i < j < |t| :: le(t[i].id, t[j].id)) &&
            (forall q | q in t :: ComesFrom(q, s, le)) && (forall p | p in s :: IsRead(p, t, le))
  {
    var all, t := NormalizedAll(s, le), Read(s, le);
    SortPermutes(all, By(PatternId(), le));
    ByPreorder(PatternId(), le);
    SortSorts(all, By(PatternId(), le));
    forall i, j | 0 <= i < j < |t| ensures le(t[i].id, t[j].id) { assert By(PatternId(), le)(t[i], t[j]); }
    forall q | q in t ensures ComesFrom(q, s, le) {
      var i :| 0 <= i < |all| && all[i] == q;
      NormalizedInOrder(s[i], le);
      assert s[i] in s;
    }
    forall p | p in s ensures IsRead(p, t, le) {
      var i :| 0 <= i < |s| && s[i] == p;
      NormalizedInOrder(p, le);
      assert all[i] in t;
    }
  }

  /** With distinct ids what is read is well formed, so a command on it is one on a store that commands wrote. */
  lemma ReadIsWellFormed(s: Store, le: Compare)
    requires TotalPreorder(le) && UniqueIds(s)
    ensures WellFormed(Read(s, le), le)
  {
    var all, t := NormalizedAll(s, le), Read(s, le);
    ByPreorder(PatternId(), le);
    SortSorts(all, By(PatternId(), le));
    UniqueIdsSorted(all, le);
    SortPermutes(all, By(PatternId(), le));
    forall p | p in t ensures NormalRecord(p, le) {
      var i :| 0 <= i < |all| && all[i] == p;
      EventOrderIsPreorder(le);
      SortSorts(s[i].events, EventOrder(le));
      SortedSetSpec(s[i].supersedes, le);
    }
  }

  lemma ReadTwice(s: Store, le: Compare)
    requires TotalPreorder(le) && UniqueIds(s)
    ensures Read(Read(s, le), le) == Read(s, le)
  {
    ReadIsWellFormed(s, le);
    ReadIsIdentity(Read(s, le), le);
  }

  lemma KeepIsNoFailure(existing: Option<Pattern>, successor: Option<Pattern>, r: Request, at: string, le: Compare)
    ensures var d := Decide(existing, successor, r, at, le);
            d.Keep? ==> d.outcome == Noop || d.outcome == Conflict
  {
  }

  lemma SameWhenRead(s: Store, t: Store, r: Request, at: string, le: Compare)
    requires Read(s, le) == t && Read(t, le) == t
    ensures var (u, outcome) := Step(s, r, at, le);
            outcome == Step(t, r, at, le).1 && u == if outcome.Failed? then s else Step(t, r, at, le).0
  {
    var existing, successor := Find(t, r.id), Find(t, SuccessorId(r));
    KeepIsNoFailure(existing, successor, r, at, le);
    match Decide(existing, successor, r, at, le)
    case Reject(_) =>
    case Keep(_) =>
    case WriteOne(_) =>
    case WriteBoth(_, _) =>
  }

  /** A command on any store with distinct ids answers as on what is read from it, and unless it fails leaves the
      same. */
  lemma StepReads(s: Store, r: Request, at: string, le: Compare)
    requires TotalPreorder(le) && UniqueIds(s)
    ensures var (t, outcome) := Step(s, r, at, le);
            outcome == Step(Read(s, le), r, at, le).1 &&
            t == if outcome.Failed? then s else Step(Read(s, le), r, at, le).0
  {
    ReadTwice(s, le);
    SameWhenRead(s, Read(s, le), r, at, le);
  }
}
