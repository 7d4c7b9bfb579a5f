/** What the parser and the two checks of the orchestrator accept, in terms of the contract as it is given. Lane ids may
    repeat: the overlap check then asks the first lane of an id, the wave check the last. */
module GivenContracts {
  import opened Text
  import opened Sorting
  import opened Orchestrator

  // ----- Places in a permutation -----

  lemma {:induction false} TwicePlaced<T>(s: seq<T>, x: T) returns (m: nat, n: nat)
    requires multiset(s)[x] >= 2
    ensures m < n < |s| && s[m] == x && s[n] == x
  {
    var k := |s| - 1;
    assert s == s[..k] + [s[k]];
    if s[k] == x {
      assert x in s[..k] by { assert x in multiset(s[..k]); }
      m :| 0 <= m < k && s[..k][m] == x;
      n := k;
    } else {
      m, n := TwicePlaced(s[..k], x);
    }
  }

  lemma ListedTwice<T>(s: seq<T>, i: nat, j: nat)
    requires i < j < |s| && s[i] == s[j]
    ensures multiset(s)[s[i]] >= 2
  {
    assert s == s[..j] + [s[j]] + s[j + 1..];
    assert s[..j][i] == s[i];
    assert s[i] in multiset(s[..j]);
  }

  /** Two places of a list are two places of any permutation of it. */
  lemma PairElsewhere<T>(a: seq<T>, b: seq<T>, i: nat, j: nat) returns (m: nat, n: nat)
    requires multiset(a) == multiset(b) && i < |a| && j < |a| && i != j
    ensures m < |b| && n < |b| && m != n && b[m] == a[i] && b[n] == a[j]
  {
    SameMembers(a, b);
    if a[i] == a[j] {
      ListedTwice(a, if i < j then i else j, if i < j then j else i);
      m, n := TwicePlaced(b, a[i]);
    } else {
      assert a[i] in a && a[j] in a;
      m :| 0 <= m < |b| && b[m] == a[i];
      n :| 0 <= n < |b| && b[n] == a[j];
    }
  }

  // ----- The first lane of an id -----


  predicate RawAllows(lane: RawLane, path: string) { path in lane.allowedPaths.GetOr([]) }

  predicate RawShares(lane: RawLane, path: string) { path in lane.sharedPaths.GetOr([]) }

  predicate IsFirst(lanes: seq<RawLane>, k: int)
    requires 0 <= k < |lanes|
  {
    forall m | 0 <= m < k :: lanes[m].id != lanes[k].id
  }

  lemma {:induction false} FirstOfId(lanes: seq<RawLane>, i: nat) returns (k: nat)
    requires i < |lanes|
    ensures k <= i && IsFirst(lanes, k) && lanes[k].id == lanes[i].id
  {
    k := i;
    if m :| 0 <= m < i && lanes[m].id == lanes[i].id { k := FirstOfId(lanes, m); }
  }

  lemma {:induction false} FirstAppend(lanes: seq<Lane>, x: Lane, id: string)
    ensures FirstLane(lanes + [x], id) ==
            if FirstLane(lanes, id).Some? then FirstLane(lanes, id) else if x.id == id then Some(x) else None
  {
    if lanes == [] {
      assert lanes + [x] == [x] && [x][1..] == [];
    } else {
      FirstAppend(lanes[1..], x, id);
      assert (lanes + [x])[1..] == lanes[1..] + [x];
    }
  }

  lemma {:induction false} FirstInsert(x: Lane, lanes: seq<Lane>, id: string, le: (string, string) -> bool)
    requires le(x.id, x.id)
    ensures FirstLane(Insert(x, lanes, By(LaneId(), le)), id) == FirstLane(lanes + [x], id)
  {
    InsertedLast(x, lanes, le);
    if lanes != [] && !le(lanes[|lanes| - 1].id, x.id) {
      var rest, last := lanes[..|lanes| - 1], lanes[|lanes| - 1];
      FirstInsert(x, rest, id, le);
      FirstAppend(Insert(x, rest, By(LaneId(), le)), last, id);
      FirstAppend(rest, x, id);
      FirstAppend(rest, last, id);
      FirstAppend(lanes, x, id);
      assert lanes == rest + [last];
    }
  }

  /** Sorting by id is stable, so the first lane of each id stays the first. */
  lemma {:induction false} FirstSorted(lanes: seq<Lane>, id: string, le: (string, string) -> bool)
    requires TotalPreorder(le)
    ensures FirstLane(Sort(lanes, By(LaneId(), le)), id) == FirstLane(lanes, id)
  {
    if lanes != [] {
      var rest, last := lanes[..|lanes| - 1], lanes[|lanes| - 1];
      FirstSorted(rest, id, le);
      FirstInserted(rest, Sort(rest, By(LaneId(), le)), last, id, le);
      assert lanes == rest + [last];
    }
  }

  lemma FirstInserted(rest: seq<Lane>, sorted: seq<Lane>, last: Lane, id: string, le: (string, string) -> bool)
    requires le(last.id, last.id) && FirstLane(sorted, id) == FirstLane(rest, id)
    ensures FirstLane(Insert(last, sorted, By(LaneId(), le)), id) == FirstLane(rest + [last], id)
  {
    FirstInsert(last, sorted, id, le);
    FirstAppend(sorted, last, id);
    FirstAppend(rest, last, id);
  }

  lemma {:induction false} FirstLaneAt(lanes: seq<Lane>, k: nat)
    requires k < |lanes| && forall m | 0 <= m < k :: lanes[m].id != lanes[k].id
    ensures FirstLane(lanes, lanes[k].id) == Some(lanes[k])
  {
    if k > 0 {
      assert forall m | 0 <= m < k - 1 :: lanes[1..][m] == lanes[m + 1];
      FirstLaneAt(lanes[1..], k - 1);
    }
  }

  function ParsedLanesOf(raw: seq<RawLane>, le: (string, string) -> bool): seq<Lane> {
    Sort(ParseLanes(raw, le), By(LaneId(), le))
  }

  /** In a parsed contract the first given lane of an id is the one that is asked. */
  lemma FirstIsAsked(raw: seq<RawLane>, k: nat, path: string, le: (string, string) -> bool)
    requires TotalPreorder(le) && k < |raw| && IsFirst(raw, k)
    ensures ListsShared(ParsedLanesOf(raw, le), raw[k].id, path) <==> RawShares(raw[k], path)
  {
    var lanes := ParseLanes(raw, le);
    FirstSorted(lanes, raw[k].id, le);
    assert forall m | 0 <= m < k :: lanes[m].id == raw[m].id;
    FirstLaneAt(lanes, k);
    SortedSetSpec(raw[k].sharedPaths.GetOr([]), le);
  }

  // ----- What the overlap check accepts -----

  /** Lanes i and j both allow the path. */
  ghost predicate Common(lanes: seq<RawLane>, i: int, j: int, path: string) {
    0 <= i < |lanes| && 0 <= j < |lanes| && i != j && RawAllows(lanes[i], path) && RawAllows(lanes[j], path)
  }

  ghost predicate FirstShares(lanes: seq<RawLane>, i: int, path: string)
    requires 0 <= i < |lanes|
  {
    exists k | 0 <= k < |lanes| :: IsFirst(lanes, k) && lanes[k].id == lanes[i].id && RawShares(lanes[k], path)
  }

  /** A path of two lanes is shared globally and by the first lane of each lane's id. */
  ghost predicate SharedByFirsts(raw: RawContract) {
    forall i, j, path | Common(raw.lanes, i, j, path) ::
      path in raw.sharedPaths.GetOr([]) && FirstShares(raw.lanes, i, path)
  }

  /** A path of two lanes is shared globally and by each of them. */
  ghost predicate SharedByAll(raw: RawContract) {
    forall i, j, path | Common(raw.lanes, i, j, path) ::
      path in raw.sharedPaths.GetOr([]) && RawShares(raw.lanes[i], path)
  }

  lemma FirstSharesExactly(raw: seq<RawLane>, i: nat, path: string, le: (string, string) -> bool)
    requires TotalPreorder(le) && i < |raw|
    ensures ListsShared(ParsedLanesOf(raw, le), raw[i].id, path) <==> FirstShares(raw, i, path)
  {
    var k := FirstOfId(raw, i);
    FirstIsAsked(raw, k, path, le);
    if m :| 0 <= m < |raw| && IsFirst(raw, m) && raw[m].id == raw[i].id && RawShares(raw[m], path) {
      FirstIsAsked(raw, m, path, le);
    }
  }

  /** The parsed lanes, in contract order or in plan order, are the given ones. */
  lemma ParsedAllows(raw: seq<RawLane>, i: nat, path: string, le: (string, string) -> bool)
    requires TotalPreorder(le) && i < |raw|
    ensures Allows(ParseLanes(raw, le)[i], path) <==> RawAllows(raw[i], path)
    ensures path in ParseLanes(raw, le)[i].sharedPaths <==> RawShares(raw[i], path)
  {
    SortedSetSpec(raw[i].allowedPaths.GetOr([]), le);
    SortedSetSpec(raw[i].sharedPaths.GetOr([]), le);
  }

  lemma PairParsed(raw: seq<RawLane>, lanes: seq<Lane>, path: string, i: nat, j: nat, le: (string, string) -> bool)
    returns (m: nat, n: nat)
    requires TotalPreorder(le) && multiset(lanes) == multiset(ParseLanes(raw, le)) && Common(raw, i, j, path)
    ensures m < |lanes| && n < |lanes| && m != n && lanes[m] == ParseLane(raw[i], le) &&
            lanes[n] == ParseLane(raw[j], le)
    ensures Allows(lanes[m], path) && Allows(lanes[n], path)
  {
    ParsedAllows(raw, i, path, le);
    ParsedAllows(raw, j, path, le);
    m, n := PairElsewhere(ParseLanes(raw, le), lanes, i, j);
  }

  lemma PairGiven(raw: seq<RawLane>, lanes: seq<Lane>, path: string, m: nat, n: nat, le: (string, string) -> bool)
    returns (i: nat, j: nat)
    requires TotalPreorder(le) && multiset(lanes) == multiset(ParseLanes(raw, le)) && m < |lanes| && n < |lanes| &&
             m != n
    requires Allows(lanes[m], path) && Allows(lanes[n], path)
    ensures Common(raw, i, j, path) && lanes[m] == ParseLane(raw[i], le) && lanes[n] == ParseLane(raw[j], le)
  {
    i, j := PairElsewhere(lanes, ParseLanes(raw, le), m, n);
    ParsedAllows(raw, i, path, le);
    ParsedAllows(raw, j, path, le);
  }

  /** The parts of a parsed contract that the overlap check reads. */
  ghost predicate ParsedFrom(c: Contract, raw: RawContract, le: (string, string) -> bool) {
    c.lanes == ParsedLanesOf(raw.lanes, le) && c.sharedPaths == SortedSet(raw.sharedPaths.GetOr([]), le)
  }

  lemma ParsedFromLanes(c: Contract, raw: RawContract, le: (string, string) -> bool)
    requires TotalPreorder(le) && ParsedFrom(c, raw, le)
    ensures multiset(c.lanes) == multiset(ParseLanes(raw.lanes, le))
    ensures forall lane | lane in c.lanes :: NoDuplicates(lane.allowedPaths)
    ensures forall path :: path in c.sharedPaths <==> path in raw.sharedPaths.GetOr([])
  {
    SortPermutes(ParseLanes(raw.lanes, le), By(LaneId(), le));
    ParsedLanes(raw.lanes, le);
    SortedSetSpec(raw.sharedPaths.GetOr([]), le);
  }

  lemma AcceptedPair(c: Contract, raw: RawContract, i: nat, j: nat, path: string, le: (string, string) -> bool)
    requires TotalPreorder(le) && ParsedFrom(c, raw, le) && PathAccepted(c, path) && Common(raw.lanes, i, j, path)
    ensures path in raw.sharedPaths.GetOr([]) && FirstShares(raw.lanes, i, path)
  {
    ParsedFromLanes(c, raw, le);
    var m, n := PairParsed(raw.lanes, c.lanes, path, i, j, le);
    OwnerListed(c.lanes, path, m);
    TwoLanes(c.lanes, path, if m < n then m else n, if m < n then n else m);
    var ids := Owners(c.lanes, path);
    var k :| 0 <= k < |ids| && ids[k] == raw.lanes[i].id;
    assert ListsShared(c.lanes, ids[k], path);
    FirstSharesExactly(raw.lanes, i, path, le);
  }

  lemma PathIsAccepted(c: Contract, raw: RawContract, path: string, le: (string, string) -> bool)
    requires TotalPreorder(le) && ParsedFrom(c, raw, le) && SharedByFirsts(raw)
    ensures PathAccepted(c, path)
  {
    ParsedFromLanes(c, raw, le);
    var ids := Owners(c.lanes, path);
    if |ids| >= 2 {
      var m, n := TwoOwners(c.lanes, path);
      var a, b := PairGiven(raw.lanes, c.lanes, path, m, n, le);
      forall k | 0 <= k < |ids| ensures ListsShared(c.lanes, ids[k], path) {
        var x := ListedOwner(c.lanes, path, k);
        var i, j := PairGiven(raw.lanes, c.lanes, path, x, if x == m then n else m, le);
        FirstSharesExactly(raw.lanes, i, path, le);
      }
    }
  }

  /** The overlap check passes exactly if every path allowed to two lanes, of one id or of two, is shared globally and
      by the first lane of each of their ids. */
  lemma OverlapCheckExactly(raw: RawContract, le: (string, string) -> bool)
    requires TotalPreorder(le) && ParseContract(raw, le).Ok?
    ensures OverlapVerdict(ParseContract(raw, le).value).Ok? <==> SharedByFirsts(raw)
  {
    var c := ParseContract(raw, le).value;
    ParsedParts(raw, le);
    OverlapVerdictSpec(c);
    if AllPathsAccepted(c) {
      forall i, j, path | Common(raw.lanes, i, j, path)
        ensures path in raw.sharedPaths.GetOr([]) && FirstShares(raw.lanes, i, path)
      {
        assert PathAccepted(c, path);
        AcceptedPair(c, raw, i, j, path, le);
      }
    }
    if SharedByFirsts(raw) {
      forall path ensures PathAccepted(c, path) { PathIsAccepted(c, raw, path, le); }
    }
  }

  lemma FirstSharesItself(lanes: seq<RawLane>, i: nat, path: string)
    requires i < |lanes| && IsFirst(lanes, i)
    ensures FirstShares(lanes, i, path) <==> RawShares(lanes[i], path)
  {
    if k :| 0 <= k < |lanes| && IsFirst(lanes, k) && lanes[k].id == lanes[i].id && RawShares(lanes[k], path) {
      assert k == i;
    }
  }

  lemma DistinctAreFirst(raw: RawContract)
    requires DistinctRawIds(raw.lanes)
    ensures SharedByFirsts(raw) <==> SharedByAll(raw)
  {
    forall i, path | 0 <= i < |raw.lanes| ensures FirstShares(raw.lanes, i, path) <==> RawShares(raw.lanes[i], path) {
      FirstSharesItself(raw.lanes, i, path);
    }
  }

  /** With distinct lane ids: exactly if every path allowed to two lanes is shared globally and by both. */
  lemma OverlapCheckExact(raw: RawContract, le: (string, string) -> bool)
    requires TotalPreorder(le) && ParseContract(raw, le).Ok? && DistinctRawIds(raw.lanes)
    ensures OverlapVerdict(ParseContract(raw, le).value).Ok? <==> SharedByAll(raw)
  {
    OverlapCheckExactly(raw, le);
    DistinctAreFirst(raw);
  }

  // ----- The last lane of an id -----

  lemma {:induction false} ByIdMember(lanes: seq<Lane>)
    ensures forall id | id in ById(lanes) :: ById(lanes)[id] in lanes && ById(lanes)[id].id == id
    ensures forall lane | lane in lanes :: lane.id in ById(lanes)
  {
    if lanes != [] {
      ByIdMember(lanes[..|lanes| - 1]);
      assert lanes == lanes[..|lanes| - 1] + [lanes[|lanes| - 1]];
    }
  }

  lemma ByIdAppend(lanes: seq<Lane>, x: Lane)
    ensures ById(lanes + [x]) == ById(lanes)[x.id := x]
  {
    assert (lanes + [x])[..|lanes|] == lanes;
  }

  lemma UpdatesCommute(m: map<string, Lane>, x: Lane, y: Lane)
    requires x.id != y.id
    ensures m[x.id := x][y.id := y] == m[y.id := y][x.id := x]
  {
  }

  lemma InsertedLast(x: Lane, lanes: seq<Lane>, le: (string, string) -> bool)
    ensures var order := By(LaneId(), le);
            if lanes == [] || le(lanes[|lanes| - 1].id, x.id) then Insert(x, lanes, order) == lanes + [x]
            else Insert(x, lanes, order) == Insert(x, lanes[..|lanes| - 1], order) + [lanes[|lanes| - 1]]
  {
  }

  lemma {:induction false} ByIdInsert(x: Lane, lanes: seq<Lane>, le: (string, string) -> bool)
    requires le(x.id, x.id)
    ensures ById(Insert(x, lanes, By(LaneId(), le))) == ById(lanes)[x.id := x]
  {
    InsertedLast(x, lanes, le);
    if lanes == [] || le(lanes[|lanes| - 1].id, x.id) {
      ByIdAppend(lanes, x);
    } else {
      var rest, last := lanes[..|lanes| - 1], lanes[|lanes| - 1];
      ByIdInsert(x, rest, le);
      ByIdAppend(Insert(x, rest, By(LaneId(), le)), last);
      UpdatesCommute(ById(rest), x, last);
    }
  }

  /** Sorting by id is stable, so the last lane of each id stays the last. */
  lemma {:induction false} ByIdSorted(lanes: seq<Lane>, le: (string, string) -> bool)
    requires TotalPreorder(le)
    ensures ById(Sort(lanes, By(LaneId(), le))) == ById(lanes)
  {
    if lanes != [] {
      ByIdSorted(lanes[..|lanes| - 1], le);
      ByIdInsert(lanes[|lanes| - 1], Sort(lanes[..|lanes| - 1], By(LaneId(), le)), le);
    }
  }

  /** The wave of the last lane with an id. */
  function LastWave(lanes: seq<RawLane>, id: string): Option<real> {
    if lanes == [] then None
    else if lanes[|lanes| - 1].id == id then Some(lanes[|lanes| - 1].wave.GetOr(1.0))
    else LastWave(lanes[..|lanes| - 1], id)
  }

  lemma {:induction false} ByIdParsed(raw: seq<RawLane>, id: string, le: (string, string) -> bool)
    ensures id in ById(ParseLanes(raw, le)) <==> LastWave(raw, id).Some?
    ensures id in ById(ParseLanes(raw, le)) ==> ById(ParseLanes(raw, le))[id].wave == LastWave(raw, id).value
  {
    var lanes := ParseLanes(raw, le);
    if raw != [] {
      ByIdParsed(raw[..|raw| - 1], id, le);
      assert lanes[..|lanes| - 1] == ParseLanes(raw[..|raw| - 1], le);
    }
  }

  /** The lanes of a parsed contract: each is a given lane, and the last of each id is the last given. */
  lemma ParsedLane(raw: seq<RawLane>, i: nat, le: (string, string) -> bool)
    requires TotalPreorder(le) && i < |raw|
    ensures ParseLane(raw[i], le) in Sort(ParseLanes(raw, le), By(LaneId(), le))
    ensures var byId := ById(Sort(ParseLanes(raw, le), By(LaneId(), le)));
            raw[i].id in byId && LastWave(raw, raw[i].id) == Some(byId[raw[i].id].wave)
  {
    var lanes := ParseLanes(raw, le);
    assert lanes[i] == ParseLane(raw[i], le) && lanes[i] in lanes;
    SortPermutes(lanes, By(LaneId(), le));
    ByIdSorted(lanes, le);
    ByIdMember(lanes);
    ByIdParsed(raw, raw[i].id, le);
  }

  lemma LaneIsParsed(raw: seq<RawLane>, lane: Lane, le: (string, string) -> bool) returns (i: nat)
    requires lane in Sort(ParseLanes(raw, le), By(LaneId(), le))
    ensures i < |raw| && lane == ParseLane(raw[i], le)
  {
    SortPermutes(ParseLanes(raw, le), By(LaneId(), le));
    i :| 0 <= i < |raw| && ParseLanes(raw, le)[i] == lane;
  }

  // ----- What the wave check accepts -----

  /** What the wave check accepts, on the contract as given. */
  ghost predicate RawWavesAccepted(lanes: seq<RawLane>) {
    forall i | 0 <= i < |lanes| :: RawLaneAccepted(lanes, i)
  }

  /** The last lane of every dependency of lane i is in a smaller wave. */
  ghost predicate RawLaneAccepted(lanes: seq<RawLane>, i: int)
    requires 0 <= i < |lanes|
  {
    forall d | d in lanes[i].dependsOn.GetOr([]) ::
      LastWave(lanes, d).Some? && LastWave(lanes, d).value < lanes[i].wave.GetOr(1.0)
  }

  lemma LastLanes(c: Contract, raw: RawContract, id: string, le: (string, string) -> bool)
    requires TotalPreorder(le) && ParsedFrom(c, raw, le)
    ensures id in ById(c.lanes) <==> LastWave(raw.lanes, id).Some?
    ensures id in ById(c.lanes) ==> ById(c.lanes)[id].wave == LastWave(raw.lanes, id).value
  {
    ByIdSorted(ParseLanes(raw.lanes, le), le);
    ByIdParsed(raw.lanes, id, le);
  }

  lemma LaneAcceptedAsGiven(c: Contract, raw: RawContract, i: nat, le: (string, string) -> bool)
    requires TotalPreorder(le) && ParsedFrom(c, raw, le) && i < |raw.lanes|
    ensures LaneAccepted(c, ParseLane(raw.lanes[i], le)) <==> RawLaneAccepted(raw.lanes, i)
  {
    SortedSetSpec(raw.lanes[i].dependsOn.GetOr([]), le);
    forall d ensures DependencyAccepted(c, ParseLane(raw.lanes[i], le), d) <==>
                     LastWave(raw.lanes, d).Some? && LastWave(raw.lanes, d).value < raw.lanes[i].wave.GetOr(1.0)
    {
      LastLanes(c, raw, d, le);
    }
  }

  lemma WavesAsGiven(c: Contract, raw: RawContract, le: (string, string) -> bool)
    requires TotalPreorder(le) && ParsedFrom(c, raw, le)
    ensures WavesAccepted(c) <==> RawWavesAccepted(raw.lanes)
  {
    forall i | 0 <= i < |raw.lanes|
      ensures ParseLane(raw.lanes[i], le) in c.lanes
      ensures LaneAccepted(c, ParseLane(raw.lanes[i], le)) <==> RawLaneAccepted(raw.lanes, i)
    {
      ParsedLane(raw.lanes, i, le);
      LaneAcceptedAsGiven(c, raw, i, le);
    }
    forall lane | lane in c.lanes ensures exists i | 0 <= i < |raw.lanes| :: lane == ParseLane(raw.lanes[i], le) {
      var i := LaneIsParsed(raw.lanes, lane, le);
    }
  }

  // ----- What gets a plan -----

  predicate WellFormed(raw: RawContract) {
    raw.schemaVersion == "1.0" && raw.goal != "" && raw.lanes != [] && !LacksId(raw.lanes)
  }

  /** A contract gets a plan exactly if it is well formed, every path of two lanes is shared globally and by the first
      lane of each of their ids, and the last lane of every dependency is in a smaller wave. */
  lemma AcceptedExactly(raw: RawContract, modules: seq<string>, le: (string, string) -> bool)
    requires TotalPreorder(le)
    ensures PlanResult(raw, modules, le).Ok? <==> WellFormed(raw) && SharedByFirsts(raw) && RawWavesAccepted(raw.lanes)
  {
    if ParseContract(raw, le).Ok? {
      ParsedParts(raw, le);
      OverlapCheckExactly(raw, le);
      WavesAsGiven(ParseContract(raw, le).value, raw, le);
      WavesVerdictSpec(ParseContract(raw, le).value);
    }
  }

  /** Which check refuses a contract: the shape of it first, in this order, then paths, then waves. */
  lemma RefusedExactly(raw: RawContract, modules: seq<string>, le: (string, string) -> bool)
    requires TotalPreorder(le)
    ensures var r := PlanResult(raw, modules, le);
            if raw.schemaVersion != "1.0" then r == Err(UnsupportedSchemaVersion)
            else if raw.goal == "" then r == Err(GoalRequired)
            else if raw.lanes == [] then r == Err(LanesRequired)
            else if exists i | 0 <= i < |raw.lanes| :: raw.lanes[i].id == "" then r == Err(LaneRequiresId)
            else
              ParseContract(raw, le).Ok? &&
              var c := ParseContract(raw, le).value;
              if !SharedByFirsts(raw) then r.Err? && FirstPathError(c, ListedPaths(c.lanes), r.error)
              else if !RawWavesAccepted(raw.lanes) then r.Err? && FirstWaveError(c, c.lanes, r.error)
              else r.Ok?
  {
    if ParseContract(raw, le).Ok? {
      var c := ParseContract(raw, le).value;
      ParsedParts(raw, le);
      OverlapCheckExactly(raw, le);
      OverlapVerdictSpec(c);
      WavesAsGiven(c, raw, le);
      WavesVerdictSpec(c);
    }
  }

  /** A lane as given, with every list sorted and without repetitions, in wave 1 if it names none. */
  ghost predicate TidyLane(raw: RawLane, lane: Lane, le: (string, string) -> bool) {
    lane.id == raw.id && lane.wave == raw.wave.GetOr(1.0) && Tidy(raw.allowedPaths.GetOr([]), lane.allowedPaths, le) &&
    Tidy(raw.sharedPaths.GetOr([]), lane.sharedPaths, le) && Tidy(raw.dependsOn.GetOr([]), lane.dependsOn, le)
  }

  ghost predicate Tidy(given: seq<string>, tidy: seq<string>, le: (string, string) -> bool) {
    (forall x :: x in tidy <==> x in given) &&
    forall i, j | 0 <= i < j < |tidy| :: le(tidy[i], tidy[j]) && tidy[i] != tidy[j]
  }

  lemma SortedSetIsTidy(s: seq<string>, le: (string, string) -> bool)
    requires TotalPreorder(le)
    ensures Tidy(s, SortedSet(s, le), le)
  {
    SortedSetSpec(s, le);
  }

  lemma ParsedIsTidy(raw: RawLane, le: (string, string) -> bool)
    requires TotalPreorder(le)
    ensures TidyLane(raw, ParseLane(raw, le), le)
  {
    SortedSetIsTidy(raw.allowedPaths.GetOr([]), le);
    SortedSetIsTidy(raw.sharedPaths.GetOr([]), le);
    SortedSetIsTidy(raw.dependsOn.GetOr([]), le);
  }

  lemma InPlanOrder(lanes: seq<Lane>, le: (string, string) -> bool)
    requires Sorted(lanes, PlanOrder(le))
    ensures forall i, j | 0 <= i < j < |lanes| ::
              lanes[i].wave < lanes[j].wave || (lanes[i].wave == lanes[j].wave && le(lanes[i].id, lanes[j].id))
  {
    forall i, j | 0 <= i < j < |lanes|
      ensures lanes[i].wave < lanes[j].wave || (lanes[i].wave == lanes[j].wave && le(lanes[i].id, lanes[j].id))
    {
      assert PlanOrder(le)(lanes[i], lanes[j]);
    }
  }

  /** What the checks see: the given lanes tidied, by id, and the shared paths tidied. */
  lemma ParsedExactly(raw: RawContract, le: (string, string) -> bool)
    requires TotalPreorder(le) && ParseContract(raw, le).Ok?
    ensures var c, tidied := ParseContract(raw, le).value, ParseLanes(raw.lanes, le);
            c.goal == raw.goal && Tidy(raw.sharedPaths.GetOr([]), c.sharedPaths, le) &&
            multiset(c.lanes) == multiset(tidied) &&
            (forall i | 0 <= i < |raw.lanes| :: TidyLane(raw.lanes[i], tidied[i], le)) &&
            forall i, j | 0 <= i < j < |c.lanes| :: le(c.lanes[i].id, c.lanes[j].id)
  {
    var c, tidied := ParseContract(raw, le).value, ParseLanes(raw.lanes, le);
    ParsedParts(raw, le);
    SortedSetIsTidy(raw.sharedPaths.GetOr([]), le);
    ByPreorder(LaneId(), le);
    SortSorts(tidied, By(LaneId(), le));
    SortPermutes(tidied, By(LaneId(), le));
    forall i, j | 0 <= i < j < |c.lanes| ensures le(c.lanes[i].id, c.lanes[j].id) {
      assert By(LaneId(), le)(c.lanes[i], c.lanes[j]);
    }
    forall i | 0 <= i < |raw.lanes| ensures TidyLane(raw.lanes[i], tidied[i], le) { ParsedIsTidy(raw.lanes[i], le); }
  }

  /** The plan of an accepted contract: its goal, the given lanes tidied, by wave and within a wave by id, and the
      modules, each once and sorted. */
  lemma PlanExactly(raw: RawContract, modules: seq<string>, le: (string, string) -> bool)
    requires TotalPreorder(le) && PlanResult(raw, modules, le).Ok?
    ensures var plan, tidied := PlanResult(raw, modules, le).value, ParseLanes(raw.lanes, le);
            plan.goal == raw.goal && Tidy(modules, plan.repoModules, le) && multiset(plan.lanes) == multiset(tidied) &&
            (forall i | 0 <= i < |raw.lanes| :: TidyLane(raw.lanes[i], tidied[i], le)) &&
            forall i, j | 0 <= i < j < |plan.lanes| ::
              plan.lanes[i].wave < plan.lanes[j].wave ||
              (plan.lanes[i].wave == plan.lanes[j].wave && le(plan.lanes[i].id, plan.lanes[j].id))
  {
    var c := ParseContract(raw, le).value;
    ParsedParts(raw, le);
    ParsedContract(raw, le);
    ParsedFromLanes(c, raw, le);
    PlanKeepsLanes(c, modules, le);
    PlanOrderIsPreorder(le);
    SortSorts(c.lanes, PlanOrder(le));
    InPlanOrder(PlanResult(raw, modules, le).value.lanes, le);
    SortedSetIsTidy(modules, le);
    forall i | 0 <= i < |raw.lanes| ensures TidyLane(raw.lanes[i], ParseLanes(raw.lanes, le)[i], le) {
      ParsedIsTidy(raw.lanes[i], le);
    }
  }
}
