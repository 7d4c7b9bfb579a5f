/** The pattern lifecycle store: promote, retire, demote, recall and supersede over a list of records
    kept sorted by id and normalised on every read. Timestamps are the strings the caller passes. */
module Promotion {
  import opened Text
  import opened Sorting

  type Compare = (string, string) -> bool

  datatype Status = Active | Superseded | Retired | Demoted
  datatype Operation = PromoteOp | SupersedeOp | RetireOp | DemoteOp | RecallOp
  datatype Event = Event(operation: Operation, at: string, reason: string, from: Option<Status>, to: Status)

  /** content stands for the descriptive fields of a record, which no operation touches. */
  datatype Pattern = Pattern(id: string, fingerprint: string, content: string, status: Status,
                             supersededBy: Option<string>, supersedes: seq<string>,
                             retiredAt: Option<string>, retirementReason: Option<string>,
                             demotedAt: Option<string>, demotionReason: Option<string>,
                             recalledAt: Option<string>, recallReason: Option<string>,
                             events: seq<Event>)

  type Store = seq<Pattern>

  datatype Request =
    | Promote(id: string, fingerprint: string, content: string)
    | Retire(id: string, reason: string)
    | Demote(id: string, reason: string)
    | Recall(id: string, reason: string)
    | Supersede(id: string, reason: string, successor: Option<string>)

  datatype Error = PatternNotFound | MissingSuccessor | SelfSupersede | SuccessorNotFound
  datatype Outcome = Written | Noop | Conflict | Failed(error: Error)

  // ----- Orders -----

  function OperationName(o: Operation): string {
    match o
    case PromoteOp => "promote"
    case SupersedeOp => "supersede"
    case RetireOp => "retire"
    case DemoteOp => "demote"
    case RecallOp => "recall"
  }

  function StatusName(s: Status): string {
    match s
    case Active => "active"
    case Superseded => "superseded"
    case Retired => "retired"
    case Demoted => "demoted"
  }

  function PatternId(): Pattern -> string { (p: Pattern) => p.id }
  function EventTime(): Event -> string { (e: Event) => e.at }
  function EventOperation(): Event -> string { (e: Event) => OperationName(e.operation) }
  function EventTarget(): Event -> string { (e: Event) => StatusName(e.to) }
  function EventReason(): Event -> string { (e: Event) => e.reason }

  /** By time, then operation, then target status, then reason. */
  function EventOrder(le: Compare): (Event, Event) -> bool {
    Then(By(EventTime(), le), Then(By(EventOperation(), le), Then(By(EventTarget(), le), By(EventReason(), le))))
  }

  lemma EventOrderIsPreorder(le: Compare)
    requires TotalPreorder(le)
    ensures TotalPreorder(EventOrder(le))
  {
    ByPreorder(EventTime(), le);
    ByPreorder(EventOperation(), le);
    ByPreorder(EventTarget(), le);
    ByPreorder(EventReason(), le);
    ThenPreorder(By(EventTarget(), le), By(EventReason(), le));
    ThenPreorder(By(EventOperation(), le), Then(By(EventTarget(), le), By(EventReason(), le)));
    ThenPreorder(By(EventTime(), le),
                 Then(By(EventOperation(), le), Then(By(EventTarget(), le), By(EventReason(), le))));
  }

  // ----- Reading and writing the store -----

  function Normalized(p: Pattern, le: Compare): Pattern {
    p.(supersedes := SortedSet(p.supersedes, le), events := Sort(p.events, EventOrder(le)))
  }

  function NormalizedAll(s: Store, le: Compare): (t: Store)
    ensures |t| == |s| && forall i | 0 <= i < |s| :: t[i] == Normalized(s[i], le)
  {
    if s == [] then [] else [Normalized(s[0], le)] + NormalizedAll(s[1..], le)
  }

  function Read(s: Store, le: Compare): Store {
    Sort(NormalizedAll(s, le), By(PatternId(), le))
  }

  function Find(s: Store, id: string): Option<Pattern> {
    if s == [] then None else if s[0].id == id then Some(s[0]) else Find(s[1..], id)
  }

  function Without(s: Store, id: string): (t: Store)
    ensures forall p :: p in t <==> p in s && p.id != id
  {
    if s == [] then [] else (if s[0].id != id then [s[0]] else []) + Without(s[1..], id)
  }

  /** The store with a record put in the place of the one with its id, or added, and sorted by id. */
  function Put(s: Store, next: Pattern, le: Compare): Store {
    Sort(Without(s, next.id) + [next], By(PatternId(), le))
  }

  function Replaced(s: Store, a: Pattern, b: Pattern): (t: Store)
    ensures |t| == |s|
    ensures forall i | 0 <= i < |s| :: t[i] == if s[i].id == a.id then a else if s[i].id == b.id then b else s[i]
  {
    if s == [] then []
    else [if s[0].id == a.id then a else if s[0].id == b.id then b else s[0]] + Replaced(s[1..], a, b)
  }

  function PutBoth(s: Store, a: Pattern, b: Pattern, le: Compare): Store {
    Sort(Replaced(s, a, b), By(PatternId(), le))
  }

  // ----- The operations -----

  function AppendEvent(p: Pattern, e: Event, le: Compare): Pattern {
    p.(events := Sort(p.events + [e], EventOrder(le)))
  }

  function NewPattern(r: Request, at: string): Pattern
    requires r.Promote?
  {
    Pattern(r.id, r.fingerprint, r.content, Active, None, [], None, None, None, None, None, None,
            [Event(PromoteOp, at, "Promoted from reviewed global pattern candidate.", None, Active)])
  }

  datatype Decision =
    | Reject(error: Error)
    | Keep(outcome: Outcome)
    | WriteOne(next: Pattern)
    | WriteBoth(existing: Pattern, successor: Pattern)

  function SuccessorId(r: Request): string {
    if r.Supersede? && r.successor.Some? then Trim(r.successor.value) else ""
  }

  function RetiredRecord(p: Pattern, reason: string, at: string, le: Compare): Pattern {
    AppendEvent(p.(status := Retired, retiredAt := Some(at), retirementReason := Some(reason)),
                Event(RetireOp, at, reason, Some(p.status), Retired), le)
  }

  function DemotedRecord(p: Pattern, reason: string, at: string, le: Compare): Pattern {
    AppendEvent(p.(status := Demoted, demotedAt := Some(at), demotionReason := Some(reason)),
                Event(DemoteOp, at, reason, Some(p.status), Demoted), le)
  }

  function RecalledRecord(p: Pattern, reason: string, at: string, le: Compare): Pattern {
    AppendEvent(p.(status := Active, recalledAt := Some(at), recallReason := Some(reason)),
                Event(RecallOp, at, reason, Some(p.status), Active), le)
  }

  function SupersededRecord(p: Pattern, target: string, reason: string, at: string, le: Compare): Pattern {
    AppendEvent(p.(status := Superseded, supersededBy := Some(target), retiredAt := None, retirementReason := None),
                Event(SupersedeOp, at, reason, Some(p.status), Superseded), le)
  }

  function SuccessorRecord(q: Pattern, id: string, reason: string, at: string, le: Compare): Pattern {
    AppendEvent(q.(status := if q.status == Retired || q.status == Demoted then Active else q.status,
                   supersedes := SortedSet(q.supersedes + [id], le)),
                Event(RecallOp, at, "Activated while superseding " + id + ": " + reason, Some(q.status), Active), le)
  }

  /** What a request does to the record it names, and for supersede to the successor. */
  function Decide(existing: Option<Pattern>, successor: Option<Pattern>, r: Request, at: string,
                  le: Compare): Decision {
    if r.Promote? then
      if existing.None? then WriteOne(NewPattern(r, at))
      else if existing.value.fingerprint == r.fingerprint then Keep(Noop)
      else Keep(Conflict)
    else if existing.None? then Reject(PatternNotFound)
    else
      var p := existing.value;
      match r
      case Retire(_, reason) =>
        if p.status == Retired then Keep(Noop)
        else WriteOne(RetiredRecord(p, reason, at, le))
      case Demote(_, reason) =>
        if p.status == Demoted then Keep(Noop)
        else WriteOne(DemotedRecord(p, reason, at, le))
      case Recall(_, reason) =>
        if p.status == Active then Keep(Noop)
        else WriteOne(RecalledRecord(p, reason, at, le))
      case Supersede(_, reason, _) =>
        var target := SuccessorId(r);
        if target == "" then Reject(MissingSuccessor)
        else if target == p.id then Reject(SelfSupersede)
        else if successor.None? then Reject(SuccessorNotFound)
        else if p.status == Superseded && p.supersededBy == Some(target) && p.id in successor.value.supersedes then
          Keep(Noop)
        else WriteBoth(SupersededRecord(p, successor.value.id, reason, at, le),
                       SuccessorRecord(successor.value, p.id, reason, at, le))
  }

  /** One command: read, decide, and write the artifact back. */
  function Step(s: Store, r: Request, at: string, le: Compare): (Store, Outcome) {
    var current := Read(s, le);
    match Decide(Find(current, r.id), Find(current, SuccessorId(r)), r, at, le)
    case Reject(error) => (s, Failed(error))
    case Keep(outcome) => (current, outcome)
    case WriteOne(next) => (Put(current, next, le), Written)
    case WriteBoth(a, b) => (PutBoth(current, a, b, le), Written)
  }

  /** A request and the timestamp it is made with. */
  datatype Command = Command(request: Request, at: string)

  /** The store after a run of commands from the empty store. */
  function Run(commands: seq<Command>, le: Compare): Store {
    if commands == [] then []
    else
      var last := commands[|commands| - 1];
      Step(Run(commands[..|commands| - 1], le), last.request, last.at, le).0
  }

  // ----- The store as a map -----

  ghost predicate UniqueIds(s: Store) {
    forall i, j | 0 <= i < j < |s| :: s[i].id != s[j].id
  }

  ghost predicate NormalRecord(p: Pattern, le: Compare) {
    Sorted(p.supersedes, le) && NoDuplicates(p.supersedes) && Sorted(p.events, EventOrder(le))
  }

  ghost predicate WellFormed(s: Store, le: Compare) {
    UniqueIds(s) && Sorted(s, By(PatternId(), le)) && forall p | p in s :: NormalRecord(p, le)
  }

  function View(s: Store): map<string, Pattern> {
    if s == [] then map[] else View(s[1..])[s[0].id := s[0]]
  }

  lemma {:induction false} ViewSpec(s: Store)
    requires UniqueIds(s)
    ensures forall p | p in s :: p.id in View(s) && View(s)[p.id] == p
    ensures forall id | id in View(s) :: View(s)[id] in s && View(s)[id].id == id
    ensures forall id :: Find(s, id) == if id in View(s) then Some(View(s)[id]) else None
  {
    if s != [] {
      ViewSpec(s[1..]);
      forall p | p in s[1..] ensures p.id != s[0].id {
        var i :| 0 <= i < |s[1..]| && s[1..][i] == p;
        assert s[i + 1] == p;
      }
    }
  }

  /** The map is determined by which records are in the store. */
  lemma ViewFrom(s: Store, m: map<string, Pattern>)
    requires UniqueIds(s)
    requires forall p :: p in s <==> p.id in m && m[p.id] == p
    requires forall id | id in m :: m[id].id == id
    ensures View(s) == m
  {
    ViewSpec(s);
    forall id ensures id in View(s) <==> id in m {
      if id in m { assert m[id] in s; }
    }
    forall id | id in m ensures View(s)[id] == m[id] {
      assert m[id] in s;
    }
  }

  lemma DistinctIds(s: Store, p: Pattern, q: Pattern)
    requires UniqueIds(s) && p in s && q in s && p != q
    ensures p.id != q.id
  {
    var i :| 0 <= i < |s| && s[i] == p;
    var j :| 0 <= j < |s| && s[j] == q;
    if i < j { assert s[i].id != s[j].id; } else { assert s[j].id != s[i].id; }
  }

  lemma SameRecordsUniqueIds(s: Store, t: Store)
    requires UniqueIds(s) && NoDuplicates(t) && forall p | p in t :: p in s
    ensures UniqueIds(t)
  {
    forall i, j | 0 <= i < j < |t| ensures t[i].id != t[j].id {
      assert t[i] in t && t[j] in t;
      DistinctIds(s, t[i], t[j]);
    }
  }

  lemma UniqueIdsSorted(s: Store, le: Compare)
    requires UniqueIds(s)
    ensures UniqueIds(Sort(s, By(PatternId(), le)))
  {
    SortPermutes(s, By(PatternId(), le));
    NoDuplicatesMultiset(s);
    NoDuplicatesMultiset(Sort(s, By(PatternId(), le)));
    SameRecordsUniqueIds(s, Sort(s, By(PatternId(), le)));
  }

  /** On a well-formed store the normalisation of a read changes nothing. */
  lemma ReadIsIdentity(s: Store, le: Compare)
    requires WellFormed(s, le)
    ensures Read(s, le) == s
  {
    forall i | 0 <= i < |s| ensures Normalized(s[i], le) == s[i] {
      assert s[i] in s;
      SortedSetIdentity(s[i].supersedes, le);
      SortIdentity(s[i].events, EventOrder(le));
    }
    assert NormalizedAll(s, le) == s;
    SortIdentity(s, By(PatternId(), le));
  }

  lemma {:induction false} WithoutUnique(s: Store, id: string)
    requires UniqueIds(s)
    ensures UniqueIds(Without(s, id))
  {
    if s != [] {
      WithoutUnique(s[1..], id);
      var t := Without(s, id);
      if s[0].id != id {
        forall j | 1 <= j < |t| ensures t[0].id != t[j].id {
          assert t[j] == Without(s[1..], id)[j - 1];
          assert t[j] in Without(s[1..], id);
          var k :| 0 <= k < |s[1..]| && s[1..][k] == t[j];
          assert s[k + 1] == t[j];
        }
      }
    }
  }

  lemma PutSpec(s: Store, next: Pattern, le: Compare)
    requires TotalPreorder(le) && WellFormed(s, le) && NormalRecord(next, le)
    ensures WellFormed(Put(s, next, le), le)
    ensures View(Put(s, next, le)) == View(s)[next.id := next]
  {
    var t := Without(s, next.id) + [next];
    WithoutUnique(s, next.id);
    ViewSpec(s);
    ViewFrom(t, View(s)[next.id := next]);
    SortedStore(t, le);
  }

  lemma PutBothSpec(s: Store, a: Pattern, b: Pattern, le: Compare)
    requires TotalPreorder(le) && WellFormed(s, le) && NormalRecord(a, le) && NormalRecord(b, le)
    requires a.id != b.id && a.id in View(s) && b.id in View(s)
    ensures WellFormed(PutBoth(s, a, b, le), le)
    ensures View(PutBoth(s, a, b, le)) == View(s)[a.id := a][b.id := b]
  {
    ReplacedView(s, a, b);
    assert ReplacedIn(View(s), a, b) == View(s)[a.id := a][b.id := b];
    ReplacedNormal(s, a, b, le);
    SortedStore(Replaced(s, a, b), le);
  }

  lemma ReplacedNormal(s: Store, a: Pattern, b: Pattern, le: Compare)
    requires (forall p | p in s :: NormalRecord(p, le)) && NormalRecord(a, le) && NormalRecord(b, le)
    ensures forall p | p in Replaced(s, a, b) :: NormalRecord(p, le)
  {
    var t := Replaced(s, a, b);
    forall i | 0 <= i < |t| ensures NormalRecord(t[i], le) {
      assert s[i] in s;
    }
  }

  /** Sorting by id keeps the map. */
  lemma SortedStore(t: Store, le: Compare)
    requires TotalPreorder(le) && UniqueIds(t) && forall p | p in t :: NormalRecord(p, le)
    ensures WellFormed(Sort(t, By(PatternId(), le)), le)
    ensures View(Sort(t, By(PatternId(), le))) == View(t)
  {
    ByPreorder(PatternId(), le);
    SortPermutes(t, By(PatternId(), le));
    SortSorts(t, By(PatternId(), le));
    UniqueIdsSorted(t, le);
    ViewSpec(t);
    ViewFrom(Sort(t, By(PatternId(), le)), View(t));
  }

  function ReplacedIn(m: map<string, Pattern>, a: Pattern, b: Pattern): map<string, Pattern> {
    map id | id in m :: if id == a.id then a else if id == b.id then b else m[id]
  }

  lemma {:induction false} ReplacedView(s: Store, a: Pattern, b: Pattern)
    requires UniqueIds(s)
    ensures UniqueIds(Replaced(s, a, b))
    ensures View(Replaced(s, a, b)) == ReplacedIn(View(s), a, b)
  {
    var t := Replaced(s, a, b);
    assert forall i | 0 <= i < |s| :: t[i].id == s[i].id;
    if s != [] {
      ReplacedView(s[1..], a, b);
      assert t[1..] == Replaced(s[1..], a, b);
    }
  }

  // ----- One step, seen on the map -----

  function Lookup(m: map<string, Pattern>, id: string): Option<Pattern> {
    if id in m then Some(m[id]) else None
  }

  function DecideOn(m: map<string, Pattern>, r: Request, at: string, le: Compare): Decision {
    Decide(Lookup(m, r.id), Lookup(m, SuccessorId(r)), r, at, le)
  }

  function Apply(m: map<string, Pattern>, d: Decision): map<string, Pattern> {
    match d
    case WriteOne(next) => m[next.id := next]
    case WriteBoth(a, b) => m[a.id := a][b.id := b]
    case _ => m
  }

  ghost predicate Keyed(m: map<string, Pattern>) {
    forall id | id in m :: m[id].id == id
  }

  ghost predicate PlainWrite(p: Pattern, next: Pattern, reason: string, at: string, le: Compare) {
    next == RetiredRecord(p, reason, at, le) || next == DemotedRecord(p, reason, at, le) ||
    next == RecalledRecord(p, reason, at, le)
  }

  /** What a decision may write: a new record, the named record moved on, or the named record and its successor. */
  ghost predicate Writes(m: map<string, Pattern>, d: Decision, r: Request, at: string, le: Compare) {
    match d
    case WriteOne(next) =>
      if r.Promote? then r.id !in m && next == NewPattern(r, at)
      else !r.Supersede? && r.id in m && PlainWrite(m[r.id], next, r.reason, at, le)
    case WriteBoth(a, b) =>
      r.Supersede? && r.id != SuccessorId(r) && r.id in m && SuccessorId(r) in m &&
      a == SupersededRecord(m[r.id], SuccessorId(r), r.reason, at, le) &&
      b == SuccessorRecord(m[SuccessorId(r)], r.id, r.reason, at, le)
    case _ => true
  }

  lemma DecisionWrites(m: map<string, Pattern>, r: Request, at: string, le: Compare)
    requires Keyed(m)
    ensures Writes(m, DecideOn(m, r, at, le), r, at, le)
  {
  }

  lemma WrittenIds(m: map<string, Pattern>, d: Decision, r: Request, at: string, le: Compare)
    requires Keyed(m) && Writes(m, d, r, at, le)
    ensures d.WriteOne? ==> d.next.id == r.id
    ensures d.WriteBoth? ==> d.existing.id == r.id && d.successor.id == SuccessorId(r)
  {
  }

  lemma AppendedIsNormal(p: Pattern, e: Event, le: Compare)
    requires TotalPreorder(le) && Sorted(p.supersedes, le) && NoDuplicates(p.supersedes)
    ensures NormalRecord(AppendEvent(p, e, le), le)
  {
    EventOrderIsPreorder(le);
    SortSorts(p.events + [e], EventOrder(le));
  }

  lemma PlainWriteIsNormal(p: Pattern, next: Pattern, reason: string, at: string, le: Compare)
    requires TotalPreorder(le) && NormalRecord(p, le) && PlainWrite(p, next, reason, at, le)
    ensures NormalRecord(next, le)
  {
    AppendedIsNormal(p.(status := Retired, retiredAt := Some(at), retirementReason := Some(reason)),
                     Event(RetireOp, at, reason, Some(p.status), Retired), le);
    AppendedIsNormal(p.(status := Demoted, demotedAt := Some(at), demotionReason := Some(reason)),
                     Event(DemoteOp, at, reason, Some(p.status), Demoted), le);
    AppendedIsNormal(p.(status := Active, recalledAt := Some(at), recallReason := Some(reason)),
                     Event(RecallOp, at, reason, Some(p.status), Active), le);
  }

  lemma SupersededIsNormal(p: Pattern, target: string, reason: string, at: string, le: Compare)
    requires TotalPreorder(le) && NormalRecord(p, le)
    ensures NormalRecord(SupersededRecord(p, target, reason, at, le), le)
  {
    AppendedIsNormal(p.(status := Superseded, supersededBy := Some(target), retiredAt := None,
                        retirementReason := None),
                     Event(SupersedeOp, at, reason, Some(p.status), Superseded), le);
  }

  lemma SuccessorIsNormal(q: Pattern, id: string, reason: string, at: string, le: Compare)
    requires TotalPreorder(le) && NormalRecord(q, le)
    ensures NormalRecord(SuccessorRecord(q, id, reason, at, le), le)
  {
    SortedSetSpec(q.supersedes + [id], le);
    AppendedIsNormal(q.(status := if q.status == Retired || q.status == Demoted then Active else q.status,
                        supersedes := SortedSet(q.supersedes + [id], le)),
                     Event(RecallOp, at, "Activated while superseding " + id + ": " + reason, Some(q.status), Active),
                     le);
  }

  lemma WrittenIsNormal(m: map<string, Pattern>, d: Decision, r: Request, at: string, le: Compare)
    requires TotalPreorder(le) && Writes(m, d, r, at, le) && forall id | id in m :: NormalRecord(m[id], le)
    ensures d.WriteOne? ==> NormalRecord(d.next, le)
    ensures d.WriteBoth? ==> NormalRecord(d.existing, le) && NormalRecord(d.successor, le)
  {
    match d
    case WriteOne(next) =>
      if !r.Promote? { PlainWriteIsNormal(m[r.id], next, r.reason, at, le); }
    case WriteBoth(a, b) =>
      SupersededIsNormal(m[r.id], SuccessorId(r), r.reason, at, le);
      SuccessorIsNormal(m[SuccessorId(r)], r.id, r.reason, at, le);
    case _ =>
  }

  /** Writing a decision to the list is applying it to the map. */
  lemma WriteRefinesMap(s: Store, d: Decision, r: Request, at: string, le: Compare)
    requires TotalPreorder(le) && WellFormed(s, le)
    ensures Writes(View(s), d, r, at, le) && d.WriteOne? ==>
              WellFormed(Put(s, d.next, le), le) && View(Put(s, d.next, le)) == Apply(View(s), d)
    ensures Writes(View(s), d, r, at, le) && d.WriteBoth? ==>
              WellFormed(PutBoth(s, d.existing, d.successor, le), le) &&
              View(PutBoth(s, d.existing, d.successor, le)) == Apply(View(s), d)
  {
    ViewSpec(s);
    if Writes(View(s), d, r, at, le) {
      WrittenIds(View(s), d, r, at, le);
      WrittenIsNormal(View(s), d, r, at, le);
      match d
      case WriteOne(next) => PutSpec(s, next, le);
      case WriteBoth(a, b) => PutBothSpec(s, a, b, le);
      case _ =>
    }
  }

  /** The sorted, re-read list refines a plain map: same decision, same records, and the list stays well formed. */
  lemma StepRefinesMap(s: Store, r: Request, at: string, le: Compare)
    requires TotalPreorder(le) && WellFormed(s, le)
    ensures var (t, outcome) := Step(s, r, at, le);
            var d := DecideOn(View(s), r, at, le);
            WellFormed(t, le) && View(t) == Apply(View(s), d) &&
            (d.Reject? ==> t == s && outcome == Failed(d.error)) &&
            (d.Keep? ==> t == s && outcome == d.outcome) &&
            (d.WriteOne? || d.WriteBoth? ==> outcome == Written)
  {
    ReadIsIdentity(s, le);
    ViewSpec(s);
    var d := DecideOn(View(s), r, at, le);
    DecisionWrites(View(s), r, at, le);
    WriteRefinesMap(s, d, r, at, le);
  }
}
