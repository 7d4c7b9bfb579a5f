/** The lane orchestrator: parse a contract, check path ownership and dependency waves, emit a sorted plan.
    Waves are real numbers. */
module Orchestrator {
  import opened Text
  import opened Sorting

  /** A lane and a contract as given; None is an absent property. */
  datatype RawLane = RawLane(id: string, allowedPaths: Option<seq<string>>, sharedPaths: Option<seq<string>>,
                             wave: Option<real>, dependsOn: Option<seq<string>>)
  datatype RawContract = RawContract(schemaVersion: string, goal: string, lanes: seq<RawLane>,
                                     sharedPaths: Option<seq<string>>)

  datatype Lane = Lane(id: string, allowedPaths: seq<string>, sharedPaths: seq<string>, wave: real,
                       dependsOn: seq<string>)
  datatype Contract = Contract(goal: string, lanes: seq<Lane>, sharedPaths: seq<string>)
  datatype Plan = Plan(goal: string, lanes: seq<Lane>, repoModules: seq<string>)

  datatype Error =
    | UnsupportedSchemaVersion
    | GoalRequired
    | LanesRequired
    | LaneRequiresId
    | OverlapRequiresShared(path: string)
    | SharedMustBeExplicit(lane: string, path: string)
    | UnknownDependency(lane: string, dependency: string)
    | WaveNotGreater(lane: string, dependency: string)

  // ----- Parsing -----

  function ParseLane(lane: RawLane, le: (string, string) -> bool): Lane {
    Lane(lane.id,
         SortedSet(lane.allowedPaths.GetOr([]), le),
         SortedSet(lane.sharedPaths.GetOr([]), le),
         lane.wave.GetOr(1.0),
         SortedSet(lane.dependsOn.GetOr([]), le))
  }

  function ParseLanes(lanes: seq<RawLane>, le: (string, string) -> bool): (parsed: seq<Lane>)
    ensures |parsed| == |lanes| && forall i | 0 <= i < |lanes| :: parsed[i] == ParseLane(lanes[i], le)
  {
    if lanes == [] then [] else [ParseLane(lanes[0], le)] + ParseLanes(lanes[1..], le)
  }

  function LaneId(): Lane -> string { (lane: Lane) => lane.id }

  predicate LacksId(lanes: seq<RawLane>) {
    exists i | 0 <= i < |lanes| :: lanes[i].id == ""
  }

  function ParseContract(raw: RawContract, le: (string, string) -> bool): Result<Contract, Error> {
    if raw.schemaVersion != "1.0" then Err(UnsupportedSchemaVersion)
    else if raw.goal == "" then Err(GoalRequired)
    else if raw.lanes == [] then Err(LanesRequired)
    else if LacksId(raw.lanes) then Err(LaneRequiresId)
    else Ok(Contract(raw.goal, Sort(ParseLanes(raw.lanes, le), By(LaneId(), le)),
                     SortedSet(raw.sharedPaths.GetOr([]), le)))
  }

  // ----- Ownership -----

  function Repeat(id: string, path: string, paths: seq<string>): seq<string> {
    if paths == [] then []
    else Repeat(id, path, paths[..|paths| - 1]) + (if paths[|paths| - 1] == path then [id] else [])
  }

  /** The ids of the lanes that allow a path, one entry per listing, in contract order. */
  function Owners(lanes: seq<Lane>, path: string): seq<string> {
    if lanes == [] then []
    else
      var last := lanes[|lanes| - 1];
      Owners(lanes[..|lanes| - 1], path) + Repeat(last.id, path, last.allowedPaths)
  }

  function FirstLane(lanes: seq<Lane>, id: string): Option<Lane> {
    if lanes == [] then None else if lanes[0].id == id then Some(lanes[0]) else FirstLane(lanes[1..], id)
  }

  predicate ListsShared(lanes: seq<Lane>, id: string, path: string) {
    var lane := FirstLane(lanes, id);
    lane.Some? && path in lane.value.sharedPaths
  }

  /** The first of these lanes that does not list the path as shared. */
  function FirstUnlisted(lanes: seq<Lane>, ids: seq<string>, path: string): Option<string> {
    if ids == [] then None
    else if !ListsShared(lanes, ids[0], path) then Some(ids[0])
    else FirstUnlisted(lanes, ids[1..], path)
  }

  function PathVerdict(c: Contract, path: string): Result<(), Error> {
    var ids := Owners(c.lanes, path);
    if |ids| < 2 then Ok(())
    else if path !in c.sharedPaths then Err(OverlapRequiresShared(path))
    else match FirstUnlisted(c.lanes, ids, path)
      case None => Ok(())
      case Some(lane) => Err(SharedMustBeExplicit(lane, path))
  }

  function PathsVerdict(c: Contract, paths: seq<string>): Result<(), Error> {
    if paths == [] then Ok(())
    else if PathVerdict(c, paths[0]).Err? then PathVerdict(c, paths[0])
    else PathsVerdict(c, paths[1..])
  }

  function ListedPaths(lanes: seq<Lane>): seq<string> {
    if lanes == [] then [] else ListedPaths(lanes[..|lanes| - 1]) + lanes[|lanes| - 1].allowedPaths
  }

  /** The first offence in the order in which the lanes first list the paths. */
  function OverlapVerdict(c: Contract): Result<(), Error> {
    PathsVerdict(c, Dedup(ListedPaths(c.lanes)))
  }

  function At(owners: map<string, seq<string>>, path: string): seq<string> {
    if path in owners then owners[path] else []
  }

  function AddOwner(owners: map<string, seq<string>>, path: string, id: string): map<string, seq<string>> {
    owners[path := (if path in owners then owners[path] else []) + [id]]
  }

  ghost predicate SameKeys(owners: map<string, seq<string>>, order: seq<string>) {
    forall path :: path in owners <==> path in order
  }

  /** The map holds the owners by these lanes. */
  ghost predicate OwnersOf(owners: map<string, seq<string>>, lanes: seq<Lane>) {
    forall path :: At(owners, path) == Owners(lanes, path)
  }

  /** The map holds the owners by these lanes and by the first m paths of one more. */
  ghost predicate OwnersPartly(owners: map<string, seq<string>>, lanes: seq<Lane>, lane: Lane, m: nat)
    requires m <= |lane.allowedPaths|
  {
    forall path :: At(owners, path) == Owners(lanes, path) + Repeat(lane.id, path, lane.allowedPaths[..m])
  }

  /** The owners map, and its paths in insertion order. */
  method CollectOwners(lanes: seq<Lane>) returns (owners: map<string, seq<string>>, order: seq<string>)
    ensures order == Dedup(ListedPaths(lanes)) && SameKeys(owners, order) && OwnersOf(owners, lanes)
  {
    owners, order := map[], [];
    for n := 0 to |lanes|
      invariant order == Dedup(ListedPaths(lanes[..n])) && SameKeys(owners, order) && OwnersOf(owners, lanes[..n])
    {
      var lane := lanes[n];
      ghost var before := lanes[..n];
      NoPathYet(owners, before, lane);
      for m := 0 to |lane.allowedPaths|
        invariant order == Dedup(ListedPaths(before) + lane.allowedPaths[..m]) && SameKeys(owners, order)
        invariant OwnersPartly(owners, before, lane, m)
      {
        var allowedPath := lane.allowedPaths[m];
        PathsNext(ListedPaths(before), lane.allowedPaths, m);
        OwnersPartlyNext(owners, before, lane, m);
        KeysNext(owners, order, allowedPath, lane.id);
        if allowedPath !in owners { order := order + [allowedPath]; }
        owners := AddOwner(owners, allowedPath, lane.id);
      }
      LaneDone(owners, lanes, n);
    }
    assert lanes[..|lanes|] == lanes;
  }

  lemma NoPathYet(owners: map<string, seq<string>>, before: seq<Lane>, lane: Lane)
    requires OwnersOf(owners, before)
    ensures OwnersPartly(owners, before, lane, 0)
    ensures ListedPaths(before) + lane.allowedPaths[..0] == ListedPaths(before)
  {
    forall path ensures Owners(before, path) + Repeat(lane.id, path, lane.allowedPaths[..0]) == Owners(before, path) { }
  }

  lemma OwnersPartlyNext(owners: map<string, seq<string>>, before: seq<Lane>, lane: Lane, m: nat)
    requires m < |lane.allowedPaths| && OwnersPartly(owners, before, lane, m)
    ensures OwnersPartly(AddOwner(owners, lane.allowedPaths[m], lane.id), before, lane, m + 1)
  {
    var next := AddOwner(owners, lane.allowedPaths[m], lane.id);
    forall path ensures At(next, path) == Owners(before, path) + Repeat(lane.id, path, lane.allowedPaths[..m + 1]) {
      RepeatNext(lane, path, m);
      assert At(next, path) == At(owners, path) + (if path == lane.allowedPaths[m] then [lane.id] else []);
    }
  }

  lemma KeysNext(owners: map<string, seq<string>>, order: seq<string>, path: string, id: string)
    requires SameKeys(owners, order)
    ensures SameKeys(AddOwner(owners, path, id), if path in order then order else order + [path])
  {
  }

  lemma LaneDone(owners: map<string, seq<string>>, lanes: seq<Lane>, n: nat)
    requires n < |lanes| && OwnersPartly(owners, lanes[..n], lanes[n], |lanes[n].allowedPaths|)
    ensures OwnersOf(owners, lanes[..n + 1])
    ensures ListedPaths(lanes[..n + 1]) == ListedPaths(lanes[..n]) + lanes[n].allowedPaths[..|lanes[n].allowedPaths|]
  {
    forall path ensures At(owners, path) == Owners(lanes[..n + 1], path) { OwnersNext(lanes, path, n); }
    OwnersNext(lanes, "", n);
  }

  lemma PathsNext(before: seq<string>, paths: seq<string>, m: nat)
    requires m < |paths|
    ensures var was := Dedup(before + paths[..m]);
            Dedup(before + paths[..m + 1]) == if paths[m] in was then was else was + [paths[m]]
  {
    var now := before + paths[..m + 1];
    assert now[..|now| - 1] == before + paths[..m];
  }

  lemma RepeatNext(lane: Lane, path: string, m: nat)
    requires m < |lane.allowedPaths|
    ensures Repeat(lane.id, path, lane.allowedPaths[..m + 1]) ==
            Repeat(lane.id, path, lane.allowedPaths[..m]) + (if path == lane.allowedPaths[m] then [lane.id] else [])
  {
    assert lane.allowedPaths[..m + 1][..m] == lane.allowedPaths[..m];
  }

  lemma OwnersNext(lanes: seq<Lane>, path: string, n: nat)
    requires n < |lanes|
    ensures var all := lanes[n].allowedPaths;
            Owners(lanes[..n + 1], path) == Owners(lanes[..n], path) + Repeat(lanes[n].id, path, all[..|all|]) &&
            ListedPaths(lanes[..n + 1]) == ListedPaths(lanes[..n]) + all[..|all|]
  {
    assert lanes[..n + 1][..n] == lanes[..n];
    assert lanes[n].allowedPaths[..|lanes[n].allowedPaths|] == lanes[n].allowedPaths;
  }

  /** The check of one path with its owners. */
  method CheckPath(contract: Contract, targetPath: string, laneIds: seq<string>) returns (r: Result<(), Error>)
    requires laneIds == Owners(contract.lanes, targetPath)
    ensures r == PathVerdict(contract, targetPath)
  {
    if |laneIds| < 2 { return Ok(()); }
    if targetPath !in contract.sharedPaths { return Err(OverlapRequiresShared(targetPath)); }
    for m := 0 to |laneIds|
      invariant FirstUnlisted(contract.lanes, laneIds, targetPath) ==
                FirstUnlisted(contract.lanes, laneIds[m..], targetPath)
    {
      if !ListsShared(contract.lanes, laneIds[m], targetPath) {
        return Err(SharedMustBeExplicit(laneIds[m], targetPath));
      }
      assert laneIds[m..][1..] == laneIds[m + 1..];
    }
    return Ok(());
  }

  method AssertOverlapPolicy(contract: Contract) returns (r: Result<(), Error>)
    ensures r == OverlapVerdict(contract)
  {
    var owners, order := CollectOwners(contract.lanes);
    for n := 0 to |order|
      invariant OverlapVerdict(contract) == PathsVerdict(contract, order[n..])
    {
      assert order[n] in order;
      assert owners[order[n]] == At(owners, order[n]);
      var checked := CheckPath(contract, order[n], owners[order[n]]);
      if checked.Err? { return checked; }
      assert order[n..][1..] == order[n + 1..];
    }
    return Ok(());
  }

  // ----- Waves -----

  /** The lanes by id; of two lanes with one id the later stays. */
  function ById(lanes: seq<Lane>): map<string, Lane> {
    if lanes == [] then map[] else ById(lanes[..|lanes| - 1])[lanes[|lanes| - 1].id := lanes[|lanes| - 1]]
  }

  function DependencyVerdict(c: Contract, lane: Lane, dependency: string): Result<(), Error> {
    if dependency !in ById(c.lanes) then Err(UnknownDependency(lane.id, dependency))
    else if ById(c.lanes)[dependency].wave >= lane.wave then Err(WaveNotGreater(lane.id, dependency))
    else Ok(())
  }

  function DependenciesVerdict(c: Contract, lane: Lane, dependencies: seq<string>): Result<(), Error> {
    if dependencies == [] then Ok(())
    else if DependencyVerdict(c, lane, dependencies[0]).Err? then DependencyVerdict(c, lane, dependencies[0])
    else DependenciesVerdict(c, lane, dependencies[1..])
  }

  function LanesVerdict(c: Contract, lanes: seq<Lane>): Result<(), Error> {
    if lanes == [] then Ok(())
    else
      var first := DependenciesVerdict(c, lanes[0], lanes[0].dependsOn);
      if first.Err? then first else LanesVerdict(c, lanes[1..])
  }

  /** The first offence, lane by lane and dependency by dependency. */
  function WavesVerdict(c: Contract): Result<(), Error> { LanesVerdict(c, c.lanes) }

  method AssertDependencyWaves(contract: Contract) returns (r: Result<(), Error>)
    ensures r == WavesVerdict(contract)
  {
    var byId := ById(contract.lanes);
    for n := 0 to |contract.lanes|
      invariant WavesVerdict(contract) == LanesVerdict(contract, contract.lanes[n..])
    {
      var lane := contract.lanes[n];
      for m := 0 to |lane.dependsOn|
        invariant DependenciesVerdict(contract, lane, lane.dependsOn) ==
                  DependenciesVerdict(contract, lane, lane.dependsOn[m..])
      {
        var dependency := lane.dependsOn[m];
        if dependency !in byId { return Err(UnknownDependency(lane.id, dependency)); }
        if byId[dependency].wave >= lane.wave { return Err(WaveNotGreater(lane.id, dependency)); }
        assert lane.dependsOn[m..][1..] == lane.dependsOn[m + 1..];
      }
      assert contract.lanes[n..][1..] == contract.lanes[n + 1..];
    }
    return Ok(());
  }

  // ----- The plan -----

  function WaveLe(): (Lane, Lane) -> bool { (a: Lane, b: Lane) => a.wave <= b.wave }

  function PlanOrder(le: (string, string) -> bool): (Lane, Lane) -> bool { Then(WaveLe(), By(LaneId(), le)) }

  function PlanLane(lane: Lane, le: (string, string) -> bool): Lane {
    Lane(lane.id, SortedSet(lane.allowedPaths, le), SortedSet(lane.sharedPaths, le), lane.wave,
         SortedSet(lane.dependsOn, le))
  }

  function PlanLanes(lanes: seq<Lane>, le: (string, string) -> bool): (out: seq<Lane>)
    ensures |out| == |lanes| && forall i | 0 <= i < |lanes| :: out[i] == PlanLane(lanes[i], le)
  {
    if lanes == [] then [] else [PlanLane(lanes[0], le)] + PlanLanes(lanes[1..], le)
  }

  function PlanOf(c: Contract, modules: seq<string>, le: (string, string) -> bool): Plan {
    Plan(c.goal, PlanLanes(Sort(c.lanes, PlanOrder(le)), le), SortedSet(modules, le))
  }

  function Checked(c: Contract): Result<(), Error> {
    if OverlapVerdict(c).Err? then OverlapVerdict(c) else WavesVerdict(c)
  }

  /** modules holds `name:path` for every module of the repository. */
  function PlanResult(raw: RawContract, modules: seq<string>, le: (string, string) -> bool): Result<Plan, Error> {
    match ParseContract(raw, le)
    case Err(error) => Err(error)
    case Ok(c) =>
      var checked := Checked(c);
      if checked.Err? then Err(checked.error) else Ok(PlanOf(c, modules, le))
  }

  method BuildOrchestratorPlan(raw: RawContract, modules: seq<string>, le: (string, string) -> bool)
    returns (r: Result<Plan, Error>)
    ensures r == PlanResult(raw, modules, le)
  {
    var parsed := ParseContract(raw, le);
    if parsed.Err? { return Err(parsed.error); }
    var contract := parsed.value;
    var overlap := AssertOverlapPolicy(contract);
    if overlap.Err? { return Err(overlap.error); }
    var waves := AssertDependencyWaves(contract);
    if waves.Err? { return Err(waves.error); }
    return Ok(PlanOf(contract, modules, le));
  }

  // ----- What the verdicts mean -----

  predicate PathAccepted(c: Contract, path: string) {
    var ids := Owners(c.lanes, path);
    |ids| >= 2 ==> path in c.sharedPaths && forall i | 0 <= i < |ids| :: ListsShared(c.lanes, ids[i], path)
  }

  ghost predicate AllPathsAccepted(c: Contract) { forall path :: PathAccepted(c, path) }

  /** What is wrong with a path of two owners: it is not shared, or this is the first owner that does not list it. */
  ghost predicate PathError(c: Contract, path: string, e: Error) {
    var ids := Owners(c.lanes, path);
    |ids| >= 2 &&
    if path !in c.sharedPaths then e == OverlapRequiresShared(path)
    else
      exists m | 0 <= m < |ids| ::
        !ListsShared(c.lanes, ids[m], path) && (forall j | 0 <= j < m :: ListsShared(c.lanes, ids[j], path)) &&
        e == SharedMustBeExplicit(ids[m], path)
  }

  /** The error is that of the first of these paths that is not accepted. */
  ghost predicate FirstPathError(c: Contract, paths: seq<string>, e: Error) {
    exists k | 0 <= k < |paths| :: PathError(c, paths[k], e) && forall j | 0 <= j < k :: PathAccepted(c, paths[j])
  }

  lemma {:induction false} FirstUnlistedAt(lanes: seq<Lane>, ids: seq<string>, path: string) returns (m: nat)
    ensures FirstUnlisted(lanes, ids, path) == None ==> m == |ids|
    ensures FirstUnlisted(lanes, ids, path).Some? ==>
              m < |ids| && ids[m] == FirstUnlisted(lanes, ids, path).value && !ListsShared(lanes, ids[m], path)
    ensures m <= |ids| && forall j | 0 <= j < m :: ListsShared(lanes, ids[j], path)
  {
    m := 0;
    if ids != [] && ListsShared(lanes, ids[0], path) {
      var rest := FirstUnlistedAt(lanes, ids[1..], path);
      assert forall j | 1 <= j <= rest && j < |ids| :: ids[j] == ids[1..][j - 1];
      m := rest + 1;
    }
  }

  lemma PathVerdictSpec(c: Contract, path: string)
    ensures PathVerdict(c, path).Ok? <==> PathAccepted(c, path)
    ensures PathVerdict(c, path).Err? ==> PathError(c, path, PathVerdict(c, path).error)
  {
    var m := FirstUnlistedAt(c.lanes, Owners(c.lanes, path), path);
  }

  lemma {:induction false} PathsVerdictSpec(c: Contract, paths: seq<string>)
    ensures PathsVerdict(c, paths).Ok? <==> forall path | path in paths :: PathAccepted(c, path)
    ensures PathsVerdict(c, paths).Err? ==> FirstPathError(c, paths, PathsVerdict(c, paths).error)
  {
    if paths != [] {
      PathVerdictSpec(c, paths[0]);
      PathsVerdictSpec(c, paths[1..]);
      assert paths == [paths[0]] + paths[1..];
      if PathAccepted(c, paths[0]) && PathsVerdict(c, paths).Err? {
        var e := PathsVerdict(c, paths).error;
        var k :| 0 <= k < |paths[1..]| && PathError(c, paths[1..][k], e) &&
                 forall j | 0 <= j < k :: PathAccepted(c, paths[1..][j]);
        assert PathError(c, paths[k + 1], e);
        forall j | 0 <= j < k + 1 ensures PathAccepted(c, paths[j]) {
          if j > 0 { assert paths[j] == paths[1..][j - 1]; }
        }
      }
    }
  }

  lemma FirstOfAll(c: Contract, paths: seq<string>, e: Error)
    requires FirstPathError(c, Dedup(paths), e)
    ensures FirstPathError(c, paths, e)
  {
    var d := Dedup(paths);
    var n :| 0 <= n < |d| && PathError(c, d[n], e) && forall j | 0 <= j < n :: PathAccepted(c, d[j]);
    var k := DedupPlaces(paths, n);
    forall j | 0 <= j < k ensures PathAccepted(c, paths[j]) {
      assert paths[j] in d[..n];
      var m :| 0 <= m < |d[..n]| && d[..n][m] == paths[j];
      assert d[m] == paths[j];
    }
    assert PathError(c, paths[k], e);
  }

  lemma {:induction false} UnlistedHasNoOwner(lanes: seq<Lane>, path: string)
    ensures path !in ListedPaths(lanes) ==> Owners(lanes, path) == []
  {
    if lanes != [] {
      var last := lanes[|lanes| - 1];
      UnlistedHasNoOwner(lanes[..|lanes| - 1], path);
      if path !in last.allowedPaths { RepeatNone(last.id, path, last.allowedPaths); }
    }
  }

  lemma {:induction false} RepeatNone(id: string, path: string, paths: seq<string>)
    requires path !in paths
    ensures Repeat(id, path, paths) == []
  {
    if paths != [] { RepeatNone(id, path, paths[..|paths| - 1]); }
  }

  /** The overlap check passes exactly when every path is accepted, and otherwise names the first offence in the order
      in which the lanes list their paths. */
  lemma OverlapVerdictSpec(c: Contract)
    ensures OverlapVerdict(c).Ok? <==> AllPathsAccepted(c)
    ensures OverlapVerdict(c).Err? ==> FirstPathError(c, ListedPaths(c.lanes), OverlapVerdict(c).error)
  {
    PathsVerdictSpec(c, Dedup(ListedPaths(c.lanes)));
    if OverlapVerdict(c).Err? { FirstOfAll(c, ListedPaths(c.lanes), OverlapVerdict(c).error); }
    DedupSpec(ListedPaths(c.lanes));
    forall path | path !in ListedPaths(c.lanes) ensures PathAccepted(c, path) { UnlistedHasNoOwner(c.lanes, path); }
  }

  predicate DependencyAccepted(c: Contract, lane: Lane, dependency: string) {
    dependency in ById(c.lanes) && ById(c.lanes)[dependency].wave < lane.wave
  }

  ghost predicate LaneAccepted(c: Contract, lane: Lane) {
    forall dependency | dependency in lane.dependsOn :: DependencyAccepted(c, lane, dependency)
  }

  ghost predicate WavesAccepted(c: Contract) { forall lane | lane in c.lanes :: LaneAccepted(c, lane) }

  /** The error is that of the first dependency of the first lane that is not accepted. */
  ghost predicate FirstWaveError(c: Contract, lanes: seq<Lane>, e: Error) {
    exists i | 0 <= i < |lanes| ::
      FirstDependencyError(c, lanes[i], lanes[i].dependsOn, e) && forall l | 0 <= l < i :: LaneAccepted(c, lanes[l])
  }

  ghost predicate FirstDependencyError(c: Contract, lane: Lane, dependencies: seq<string>, e: Error) {
    exists m | 0 <= m < |dependencies| ::
      DependencyError(c, lane, dependencies[m], e) &&
      forall j | 0 <= j < m :: DependencyAccepted(c, lane, dependencies[j])
  }

  ghost predicate DependencyError(c: Contract, lane: Lane, d: string, e: Error) {
    if d !in ById(c.lanes) then e == UnknownDependency(lane.id, d)
    else ById(c.lanes)[d].wave >= lane.wave && e == WaveNotGreater(lane.id, d)
  }

  lemma {:induction false} DependenciesVerdictSpec(c: Contract, lane: Lane, dependencies: seq<string>)
    ensures DependenciesVerdict(c, lane, dependencies).Ok? <==>
            forall d | d in dependencies :: DependencyAccepted(c, lane, d)
    ensures DependenciesVerdict(c, lane, dependencies).Err? ==>
              FirstDependencyError(c, lane, dependencies, DependenciesVerdict(c, lane, dependencies).error)
  {
    if dependencies != [] {
      var rest := dependencies[1..];
      DependenciesVerdictSpec(c, lane, rest);
      assert dependencies == [dependencies[0]] + rest;
      if DependencyVerdict(c, lane, dependencies[0]).Err? {
        var e := DependenciesVerdict(c, lane, dependencies).error;
        assert e == DependencyVerdict(c, lane, dependencies[0]).error;
        assert DependencyError(c, lane, dependencies[0], e) && !DependencyAccepted(c, lane, dependencies[0]);
      } else if DependenciesVerdict(c, lane, rest).Err? {
        var e := DependenciesVerdict(c, lane, rest).error;
        var m :| 0 <= m < |rest| && DependencyError(c, lane, rest[m], e) &&
                 forall j | 0 <= j < m :: DependencyAccepted(c, lane, rest[j]);
        assert DependencyError(c, lane, dependencies[m + 1], e);
        forall j | 0 <= j < m + 1 ensures DependencyAccepted(c, lane, dependencies[j]) {
          if j > 0 { assert dependencies[j] == rest[j - 1]; }
        }
      }
    }
  }

  lemma {:induction false} LanesVerdictSpec(c: Contract, lanes: seq<Lane>)
    ensures LanesVerdict(c, lanes).Ok? <==> forall lane | lane in lanes :: LaneAccepted(c, lane)
    ensures LanesVerdict(c, lanes).Err? ==> FirstWaveError(c, lanes, LanesVerdict(c, lanes).error)
  {
    if lanes != [] {
      var lane, rest := lanes[0], lanes[1..];
      DependenciesVerdictSpec(c, lane, lane.dependsOn);
      LanesVerdictSpec(c, rest);
      assert lanes == [lane] + rest;
      if DependenciesVerdict(c, lane, lane.dependsOn).Err? {
        var e := LanesVerdict(c, lanes).error;
        assert e == DependenciesVerdict(c, lane, lane.dependsOn).error;
        assert FirstDependencyError(c, lanes[0], lanes[0].dependsOn, e) && !LaneAccepted(c, lanes[0]);
      } else if LanesVerdict(c, rest).Err? {
        var e := LanesVerdict(c, rest).error;
        var i :| 0 <= i < |rest| && FirstDependencyError(c, rest[i], rest[i].dependsOn, e) &&
                 forall l | 0 <= l < i :: LaneAccepted(c, rest[l]);
        assert FirstDependencyError(c, lanes[i + 1], lanes[i + 1].dependsOn, e);
        forall l | 0 <= l < i + 1 ensures LaneAccepted(c, lanes[l]) {
          if l > 0 { assert lanes[l] == rest[l - 1]; }
        }
      }
    }
  }

  /** The wave check passes exactly when every dependency is a lane of a smaller wave, and otherwise names the first
      offence, lane by lane and dependency by dependency. */
  lemma WavesVerdictSpec(c: Contract)
    ensures WavesVerdict(c).Ok? <==> WavesAccepted(c)
    ensures WavesVerdict(c).Err? ==> FirstWaveError(c, c.lanes, WavesVerdict(c).error)
  {
    LanesVerdictSpec(c, c.lanes);
  }

  // ----- Parsed contracts -----

  ghost predicate DistinctIds(lanes: seq<Lane>) {
    forall i, j | 0 <= i < j < |lanes| :: lanes[i].id != lanes[j].id
  }

  ghost predicate DistinctRawIds(lanes: seq<RawLane>) {
    forall i, j | 0 <= i < j < |lanes| :: lanes[i].id != lanes[j].id
  }

  ghost predicate Canonical(s: seq<string>, le: (string, string) -> bool) {
    Sorted(s, le) && NoDuplicates(s)
  }

  ghost predicate CanonicalLane(lane: Lane, le: (string, string) -> bool) {
    Canonical(lane.allowedPaths, le) && Canonical(lane.sharedPaths, le) && Canonical(lane.dependsOn, le)
  }

  ghost predicate CanonicalContract(c: Contract, le: (string, string) -> bool) {
    Sorted(c.lanes, By(LaneId(), le)) && Canonical(c.sharedPaths, le) &&
    forall lane | lane in c.lanes :: CanonicalLane(lane, le)
  }

  lemma ParsedLaneIsCanonical(lane: RawLane, le: (string, string) -> bool)
    requires TotalPreorder(le)
    ensures CanonicalLane(ParseLane(lane, le), le)
  {
    SortedSetSpec(lane.allowedPaths.GetOr([]), le);
    SortedSetSpec(lane.sharedPaths.GetOr([]), le);
    SortedSetSpec(lane.dependsOn.GetOr([]), le);
  }

  lemma ParsedLanes(raw: seq<RawLane>, le: (string, string) -> bool)
    requires TotalPreorder(le)
    ensures var lanes := Sort(ParseLanes(raw, le), By(LaneId(), le));
            Sorted(lanes, By(LaneId(), le)) && (forall lane | lane in lanes :: CanonicalLane(lane, le)) &&
            (DistinctRawIds(raw) ==> DistinctIds(lanes))
  {
    var lanes := ParseLanes(raw, le);
    ByPreorder(LaneId(), le);
    SortSorts(lanes, By(LaneId(), le));
    SortPermutes(lanes, By(LaneId(), le));
    forall lane | lane in lanes ensures CanonicalLane(lane, le) {
      var i :| 0 <= i < |lanes| && lanes[i] == lane;
      ParsedLaneIsCanonical(raw[i], le);
    }
    if DistinctRawIds(raw) {
      DistinctIdsPermuted(lanes, Sort(lanes, By(LaneId(), le)));
    }
  }

  lemma ParsedParts(raw: RawContract, le: (string, string) -> bool)
    requires ParseContract(raw, le).Ok?
    ensures ParseContract(raw, le).value ==
            Contract(raw.goal, Sort(ParseLanes(raw.lanes, le), By(LaneId(), le)),
                     SortedSet(raw.sharedPaths.GetOr([]), le))
  {
  }

  lemma PartsAreCanonical(goal: string, raw: seq<RawLane>, shared: seq<string>, le: (string, string) -> bool)
    requires TotalPreorder(le)
    ensures var c := Contract(goal, Sort(ParseLanes(raw, le), By(LaneId(), le)), SortedSet(shared, le));
            CanonicalContract(c, le) && (DistinctRawIds(raw) ==> DistinctIds(c.lanes))
  {
    ParsedLanes(raw, le);
    SortedSetSpec(shared, le);
  }

  /** What parsing establishes: lanes sorted by id, every list sorted and free of duplicates. */
  lemma ParsedContract(raw: RawContract, le: (string, string) -> bool)
    requires TotalPreorder(le) && ParseContract(raw, le).Ok?
    ensures CanonicalContract(ParseContract(raw, le).value, le)
    ensures DistinctRawIds(raw.lanes) ==> DistinctIds(ParseContract(raw, le).value.lanes)
  {
    ParsedParts(raw, le);
    PartsAreCanonical(raw.goal, raw.lanes, raw.sharedPaths.GetOr([]), le);
  }

  lemma DistinctIdsPermuted(a: seq<Lane>, b: seq<Lane>)
    requires multiset(a) == multiset(b) && DistinctIds(a)
    ensures DistinctIds(b)
  {
    SameMembers(a, b);
    NoDuplicatesMultiset(a);
    NoDuplicatesMultiset(b);
    forall i, j | 0 <= i < j < |b| ensures b[i].id != b[j].id {
      assert b[i] in a && b[j] in a && b[i] != b[j];
    }
  }

  // ----- Ownership: what acceptance means -----

  lemma {:induction false} RepeatOnce(id: string, path: string, paths: seq<string>)
    requires NoDuplicates(paths)
    ensures Repeat(id, path, paths) == if path in paths then [id] else []
  {
    if paths != [] {
      var n := |paths| - 1;
      RepeatOnce(id, path, paths[..n]);
      InLast(paths, path);
      assert NoDuplicates(paths[..n]) && paths[n] !in paths[..n];
    }
  }

  lemma InLast(paths: seq<string>, path: string)
    requires paths != []
    ensures path in paths <==> path in paths[..|paths| - 1] || path == paths[|paths| - 1]
  {
    assert paths == paths[..|paths| - 1] + [paths[|paths| - 1]];
  }

  ghost predicate Allows(lane: Lane, path: string) { path in lane.allowedPaths }

  lemma OwnersStep(lanes: seq<Lane>, path: string)
    requires lanes != [] && NoDuplicates(lanes[|lanes| - 1].allowedPaths)
    ensures var last := lanes[|lanes| - 1];
            Owners(lanes, path) == Owners(lanes[..|lanes| - 1], path) + if Allows(last, path) then [last.id] else []
  {
    var last := lanes[|lanes| - 1];
    RepeatOnce(last.id, path, last.allowedPaths);
  }

  ghost predicate Owns(lanes: seq<Lane>, i: int, path: string)
    requires 0 <= i < |lanes|
  {
    Allows(lanes[i], path)
  }

  lemma {:induction false} OwnerListed(lanes: seq<Lane>, path: string, i: nat)
    requires forall lane | lane in lanes :: NoDuplicates(lane.allowedPaths)
    requires i < |lanes| && Owns(lanes, i, path)
    ensures lanes[i].id in Owners(lanes, path)
  {
    OwnersStep(lanes, path);
    if i < |lanes| - 1 {
      OwnerListed(lanes[..|lanes| - 1], path, i);
    }
  }

  lemma {:induction false} ListedOwner(lanes: seq<Lane>, path: string, k: nat) returns (i: nat)
    requires forall lane | lane in lanes :: NoDuplicates(lane.allowedPaths)
    requires k < |Owners(lanes, path)|
    ensures i < |lanes| && Owns(lanes, i, path) && lanes[i].id == Owners(lanes, path)[k]
  {
    OwnersStep(lanes, path);
    var rest := lanes[..|lanes| - 1];
    if k < |Owners(rest, path)| {
      i := ListedOwner(rest, path, k);
    } else {
      i := |lanes| - 1;
    }
  }

  /** Two entries mean two lanes. */
  lemma {:induction false} TwoOwners(lanes: seq<Lane>, path: string) returns (i: nat, j: nat)
    requires forall lane | lane in lanes :: NoDuplicates(lane.allowedPaths)
    requires |Owners(lanes, path)| >= 2
    ensures i < j < |lanes| && Owns(lanes, i, path) && Owns(lanes, j, path)
  {
    OwnersStep(lanes, path);
    var rest := lanes[..|lanes| - 1];
    if |Owners(rest, path)| >= 2 {
      i, j := TwoOwners(rest, path);
    } else {
      i := ListedOwner(rest, path, 0);
      j := |lanes| - 1;
    }
  }

  lemma {:induction false} TwoLanes(lanes: seq<Lane>, path: string, i: nat, j: nat)
    requires forall lane | lane in lanes :: NoDuplicates(lane.allowedPaths)
    requires i < j < |lanes| && Owns(lanes, i, path) && Owns(lanes, j, path)
    ensures |Owners(lanes, path)| >= 2
  {
    OwnersStep(lanes, path);
    var rest := lanes[..|lanes| - 1];
    if j < |lanes| - 1 {
      TwoLanes(rest, path, i, j);
    } else {
      OwnerListed(rest, path, i);
    }
  }

  // ----- The lanes of a plan -----

  lemma PlanOrderIsPreorder(le: (string, string) -> bool)
    requires TotalPreorder(le)
    ensures TotalPreorder(PlanOrder(le))
  {
    ByPreorder(LaneId(), le);
    var w := WaveLe();
    assert forall a, b :: w(a, b) <==> a.wave <= b.wave;
    ThenPreorder(WaveLe(), By(LaneId(), le));
  }

  /** The re-sorting of the plan changes no lane of a parsed contract. */
  lemma PlanKeepsLanes(c: Contract, modules: seq<string>, le: (string, string) -> bool)
    requires forall lane | lane in c.lanes :: CanonicalLane(lane, le)
    ensures PlanOf(c, modules, le).lanes == Sort(c.lanes, PlanOrder(le))
    ensures multiset(PlanOf(c, modules, le).lanes) == multiset(c.lanes)
  {
    var sorted := Sort(c.lanes, PlanOrder(le));
    SortPermutes(c.lanes, PlanOrder(le));
    forall i | 0 <= i < |sorted| ensures PlanLane(sorted[i], le) == sorted[i] {
      assert sorted[i] in c.lanes;
      SortedSetIdentity(sorted[i].allowedPaths, le);
      SortedSetIdentity(sorted[i].sharedPaths, le);
      SortedSetIdentity(sorted[i].dependsOn, le);
    }
  }

  // ----- Canonical output -----

  ghost predicate SameSet(a: seq<string>, b: seq<string>) { forall x :: x in a <==> x in b }

  ghost predicate SameLane(a: RawLane, b: RawLane) {
    a.id == b.id && a.wave.GetOr(1.0) == b.wave.GetOr(1.0) &&
    SameSet(a.allowedPaths.GetOr([]), b.allowedPaths.GetOr([])) &&
    SameSet(a.sharedPaths.GetOr([]), b.sharedPaths.GetOr([])) &&
    SameSet(a.dependsOn.GetOr([]), b.dependsOn.GetOr([]))
  }

  ghost predicate EachIn(a: seq<RawLane>, b: seq<RawLane>) {
    forall i | 0 <= i < |a| :: exists j | 0 <= j < |b| :: SameLane(a[i], b[j])
  }

  /** The same contract written differently: lanes permuted, path lists permuted or with duplicates. */
  ghost predicate SameContract(a: RawContract, b: RawContract) {
    a.schemaVersion == b.schemaVersion && a.goal == b.goal &&
    SameSet(a.sharedPaths.GetOr([]), b.sharedPaths.GetOr([])) &&
    EachIn(a.lanes, b.lanes) && EachIn(b.lanes, a.lanes)
  }

  lemma SameLaneParses(a: RawLane, b: RawLane, le: (string, string) -> bool)
    requires TotalOrder(le) && SameLane(a, b)
    ensures ParseLane(a, le) == ParseLane(b, le)
  {
    SortedSetCanonical(a.allowedPaths.GetOr([]), b.allowedPaths.GetOr([]), le);
    SortedSetCanonical(a.sharedPaths.GetOr([]), b.sharedPaths.GetOr([]), le);
    SortedSetCanonical(a.dependsOn.GetOr([]), b.dependsOn.GetOr([]), le);
  }

  lemma EachInParsed(a: seq<RawLane>, b: seq<RawLane>, le: (string, string) -> bool)
    requires TotalOrder(le) && EachIn(a, b)
    ensures forall x | x in ParseLanes(a, le) :: x in ParseLanes(b, le)
  {
    forall x | x in ParseLanes(a, le) ensures x in ParseLanes(b, le) {
      var i :| 0 <= i < |a| && ParseLanes(a, le)[i] == x;
      var j :| 0 <= j < |b| && SameLane(a[i], b[j]);
      SameLaneParses(a[i], b[j], le);
      assert ParseLanes(b, le)[j] == x;
    }
  }

  /** Lanes with distinct ids sort to one list, however they were ordered. */
  lemma SortedLanesUnique(a: seq<Lane>, b: seq<Lane>, le: (string, string) -> bool)
    requires TotalOrder(le) && DistinctIds(a) && DistinctIds(b) && forall x :: x in a <==> x in b
    ensures Sort(a, By(LaneId(), le)) == Sort(b, By(LaneId(), le))
  {
    var order := By(LaneId(), le);
    SameSetSameMultiset(a, b);
    ByPreorder(LaneId(), le);
    SortSorts(a, order);
    SortSorts(b, order);
    SortPermutes(a, order);
    SortPermutes(b, order);
    forall x, y | x in a && y in a && order(x, y) && order(y, x) ensures x == y {
      assert x.id == y.id;
    }
    SortedUnique(Sort(a, order), Sort(b, order), order);
  }

  /** With distinct lane ids, both spellings of a contract parse alike. */
  lemma ParseIsCanonical(a: RawContract, b: RawContract, le: (string, string) -> bool)
    requires TotalOrder(le) && SameContract(a, b) && DistinctRawIds(a.lanes) && DistinctRawIds(b.lanes)
    ensures ParseContract(a, le) == ParseContract(b, le)
  {
    SameEmptyIds(a.lanes, b.lanes);
    SameEmptyIds(b.lanes, a.lanes);
    SortedSetCanonical(a.sharedPaths.GetOr([]), b.sharedPaths.GetOr([]), le);
    SameSortedLanes(a.lanes, b.lanes, le);
  }

  lemma SameModules(a: seq<string>, b: seq<string>, le: (string, string) -> bool)
    requires TotalOrder(le) && SameSet(a, b)
    ensures forall c :: PlanOf(c, a, le) == PlanOf(c, b, le)
  {
    SortedSetCanonical(a, b, le);
  }

  /** So they give the identical plan, or the identical error. */
  lemma PlanIsCanonical(a: RawContract, b: RawContract, modulesA: seq<string>, modulesB: seq<string>,
                        le: (string, string) -> bool)
    requires TotalOrder(le) && SameContract(a, b) && SameSet(modulesA, modulesB)
    requires DistinctRawIds(a.lanes) && DistinctRawIds(b.lanes)
    ensures PlanResult(a, modulesA, le) == PlanResult(b, modulesB, le)
  {
    ParseIsCanonical(a, b, le);
    SameModules(modulesA, modulesB, le);
  }

  lemma SameSortedLanes(a: seq<RawLane>, b: seq<RawLane>, le: (string, string) -> bool)
    requires TotalOrder(le) && EachIn(a, b) && EachIn(b, a) && DistinctRawIds(a) && DistinctRawIds(b)
    ensures Sort(ParseLanes(a, le), By(LaneId(), le)) == Sort(ParseLanes(b, le), By(LaneId(), le))
  {
    EachInParsed(a, b, le);
    EachInParsed(b, a, le);
    SortedLanesUnique(ParseLanes(a, le), ParseLanes(b, le), le);
  }

  lemma SameEmptyIds(a: seq<RawLane>, b: seq<RawLane>)
    requires EachIn(a, b)
    ensures a != [] ==> b != []
    ensures LacksId(a) ==> LacksId(b)
  {
    if a != [] {
      var j :| 0 <= j < |b| && SameLane(a[0], b[j]);
    }
    if i :| 0 <= i < |a| && a[i].id == "" {
      var j :| 0 <= j < |b| && SameLane(a[i], b[j]);
    }
  }

  function RawLanes(lanes: seq<Lane>): (raw: seq<RawLane>)
    ensures |raw| == |lanes| && forall i | 0 <= i < |lanes| :: raw[i] == RawOf(lanes[i])
  {
    if lanes == [] then [] else [RawOf(lanes[0])] + RawLanes(lanes[1..])
  }

  function AsRaw(c: Contract): RawContract {
    RawContract("1.0", c.goal, RawLanes(c.lanes), Some(c.sharedPaths))
  }

  function RawOf(lane: Lane): RawLane {
    RawLane(lane.id, Some(lane.allowedPaths), Some(lane.sharedPaths), Some(lane.wave), Some(lane.dependsOn))
  }

  lemma LaneReparses(lane: Lane, le: (string, string) -> bool)
    requires CanonicalLane(lane, le)
    ensures ParseLane(RawOf(lane), le) == lane
  {
    SortedSetIdentity(lane.allowedPaths, le);
    SortedSetIdentity(lane.sharedPaths, le);
    SortedSetIdentity(lane.dependsOn, le);
  }

  lemma {:induction false} LanesReparse(lanes: seq<Lane>, le: (string, string) -> bool)
    requires forall lane | lane in lanes :: CanonicalLane(lane, le)
    ensures ParseLanes(RawLanes(lanes), le) == lanes
  {
    if lanes != [] {
      LaneReparses(lanes[0], le);
      LanesReparse(lanes[1..], le);
      assert RawLanes(lanes)[1..] == RawLanes(lanes[1..]);
    }
  }

  lemma CanonicalReparses(c: Contract, le: (string, string) -> bool)
    requires c.goal != "" && c.lanes != [] && !LacksId(RawLanes(c.lanes))
    requires Sorted(c.lanes, By(LaneId(), le)) && Canonical(c.sharedPaths, le)
    requires forall lane | lane in c.lanes :: CanonicalLane(lane, le)
    ensures ParseContract(AsRaw(c), le) == Ok(c)
  {
    LanesReparse(c.lanes, le);
    SortIdentity(c.lanes, By(LaneId(), le));
    SortedSetIdentity(c.sharedPaths, le);
  }

  /** Parsing a parsed contract changes nothing. */
  lemma ParseIsIdempotent(raw: RawContract, le: (string, string) -> bool)
    requires TotalPreorder(le) && ParseContract(raw, le).Ok?
    ensures ParseContract(AsRaw(ParseContract(raw, le).value), le) == ParseContract(raw, le)
  {
    ParsedContract(raw, le);
    NoEmptyIds(raw, le);
    CanonicalReparses(ParseContract(raw, le).value, le);
  }

  lemma NoEmptyIds(raw: RawContract, le: (string, string) -> bool)
    requires ParseContract(raw, le).Ok?
    ensures var c := ParseContract(raw, le).value; c.lanes != [] && c.goal != "" && !LacksId(RawLanes(c.lanes))
  {
    IdsKept(raw.lanes, le);
  }

  lemma IdsKept(raw: seq<RawLane>, le: (string, string) -> bool)
    requires !LacksId(raw)
    ensures var lanes := Sort(ParseLanes(raw, le), By(LaneId(), le)); |lanes| == |raw| && !LacksId(RawLanes(lanes))
  {
    var parsed := ParseLanes(raw, le);
    assert forall i | 0 <= i < |parsed| :: parsed[i].id != "";
    SortPermutes(parsed, By(LaneId(), le));
    AllNamed(parsed, Sort(parsed, By(LaneId(), le)));
  }

  lemma AllNamed(a: seq<Lane>, b: seq<Lane>)
    requires (forall i | 0 <= i < |a| :: a[i].id != "") && forall x | x in b :: x in a
    ensures !LacksId(RawLanes(b))
  {
    forall i | 0 <= i < |b| ensures b[i].id != "" {
      assert b[i] in b;
      var j :| 0 <= j < |a| && a[j] == b[i];
    }
  }
}
