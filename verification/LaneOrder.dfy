/** What accepted dependency waves promise about the order of lanes: no cycle, and dependencies first. Lane ids need
    not be distinct: what matters is that of the lanes with one id the last has the latest wave. */
module LaneOrder {
  import opened Text
  import opened Sorting
  import opened Orchestrator
  import opened GivenContracts

  // ----- The last lane of an id -----

  /** What can be read off a contract before it is submitted: of the lanes with one id none has a later wave than the
      last. */
  ghost predicate LastIsLatest(lanes: seq<RawLane>) {
    forall i | 0 <= i < |lanes| :: lanes[i].wave.GetOr(1.0) <= LastWave(lanes, lanes[i].id).GetOr(1.0)
  }

  /** The same of parsed lanes. */
  ghost predicate LatestById(lanes: seq<Lane>) {
    forall lane | lane in lanes :: lane.id in ById(lanes) && lane.wave <= ById(lanes)[lane.id].wave
  }

  lemma LatestParsed(raw: seq<RawLane>, le: (string, string) -> bool)
    requires TotalPreorder(le) && LastIsLatest(raw)
    ensures LatestById(Sort(ParseLanes(raw, le), By(LaneId(), le)))
  {
    var lanes := Sort(ParseLanes(raw, le), By(LaneId(), le));
    forall lane | lane in lanes ensures lane.id in ById(lanes) && lane.wave <= ById(lanes)[lane.id].wave {
      var i := LaneIsParsed(raw, lane, le);
      ParsedLane(raw, i, le);
      assert raw[i].wave.GetOr(1.0) <= LastWave(raw, raw[i].id).GetOr(1.0);
    }
  }

  lemma {:induction false} DistinctLastWave(raw: seq<RawLane>, i: nat)
    requires DistinctRawIds(raw) && i < |raw|
    ensures LastWave(raw, raw[i].id) == Some(raw[i].wave.GetOr(1.0))
  {
    if i < |raw| - 1 { DistinctLastWave(raw[..|raw| - 1], i); }
  }

  /** Distinct ids are the simplest case. */
  lemma DistinctIdsAreLatest(raw: seq<RawLane>)
    requires DistinctRawIds(raw)
    ensures LastIsLatest(raw)
  {
    forall i | 0 <= i < |raw| ensures raw[i].wave.GetOr(1.0) <= LastWave(raw, raw[i].id).GetOr(1.0) {
      DistinctLastWave(raw, i);
    }
  }

  // ----- Acyclic -----

  /** Some lane with id a depends on the id b. */
  ghost predicate DependsOn(c: Contract, a: string, b: string) {
    exists i | 0 <= i < |c.lanes| :: c.lanes[i].id == a && b in c.lanes[i].dependsOn
  }

  ghost predicate DependencyPath(c: Contract, path: seq<string>) {
    forall k | 0 <= k < |path| - 1 :: DependsOn(c, path[k], path[k + 1])
  }

  /** No chain of dependencies, however long, leads back to where it started. */
  ghost predicate Acyclic(c: Contract) {
    forall path | |path| >= 2 && DependencyPath(c, path) :: path[0] != path[|path| - 1]
  }

  lemma WaveFalls(c: Contract, a: string, b: string)
    requires LatestById(c.lanes) && WavesAccepted(c) && DependsOn(c, a, b)
    ensures a in ById(c.lanes) && b in ById(c.lanes) && ById(c.lanes)[b].wave < ById(c.lanes)[a].wave
  {
    var i :| 0 <= i < |c.lanes| && c.lanes[i].id == a && b in c.lanes[i].dependsOn;
    assert c.lanes[i] in c.lanes;
    assert LaneAccepted(c, c.lanes[i]) && DependencyAccepted(c, c.lanes[i], b);
  }

  lemma {:induction false} WavesFallAlong(c: Contract, path: seq<string>)
    requires LatestById(c.lanes) && WavesAccepted(c) && |path| >= 2 && DependencyPath(c, path)
    ensures path[0] in ById(c.lanes) && path[|path| - 1] in ById(c.lanes)
    ensures ById(c.lanes)[path[|path| - 1]].wave < ById(c.lanes)[path[0]].wave
  {
    assert DependsOn(c, path[0], path[1]);
    WaveFalls(c, path[0], path[1]);
    if |path| > 2 {
      forall k | 0 <= k < |path[1..]| - 1 ensures DependsOn(c, path[1..][k], path[1..][k + 1]) {
        assert DependsOn(c, path[k + 1], path[k + 1 + 1]);
      }
      WavesFallAlong(c, path[1..]);
    }
  }

  /** An accepted contract is acyclic if the last lane of each id has the latest wave. */
  lemma LatestIsAcyclic(raw: RawContract, modules: seq<string>, le: (string, string) -> bool)
    requires TotalPreorder(le) && LastIsLatest(raw.lanes) && PlanResult(raw, modules, le).Ok?
    ensures Acyclic(ParseContract(raw, le).value)
  {
    var c := ParseContract(raw, le).value;
    ParsedParts(raw, le);
    LatestParsed(raw.lanes, le);
    WavesVerdictSpec(c);
    forall path | |path| >= 2 && DependencyPath(c, path)
      ensures path[0] != path[|path| - 1]
    {
      WavesFallAlong(c, path);
    }
  }

  /** With distinct lane ids an accepted contract is acyclic. */
  lemma AcceptedIsAcyclic(raw: RawContract, modules: seq<string>, le: (string, string) -> bool)
    requires TotalPreorder(le) && DistinctRawIds(raw.lanes) && PlanResult(raw, modules, le).Ok?
    ensures Acyclic(ParseContract(raw, le).value)
  {
    DistinctIdsAreLatest(raw.lanes);
    LatestIsAcyclic(raw, modules, le);
  }

  // ----- And only then -----

  ghost predicate SameButDependsOn(a: RawLane, b: RawLane) {
    a.id == b.id && a.allowedPaths == b.allowedPaths && a.sharedPaths == b.sharedPaths && a.wave == b.wave
  }

  /** The same contract with other dependencies. */
  ghost predicate OtherDependencies(a: RawContract, b: RawContract) {
    a.schemaVersion == b.schemaVersion && a.goal == b.goal && a.sharedPaths == b.sharedPaths &&
    |a.lanes| == |b.lanes| &&
    forall i | 0 <= i < |a.lanes| :: SameButDependsOn(a.lanes[i], b.lanes[i])
  }

  lemma {:induction false} LastWaveSame(a: seq<RawLane>, b: seq<RawLane>, id: string)
    requires |a| == |b| && forall i | 0 <= i < |a| :: SameButDependsOn(a[i], b[i])
    ensures LastWave(a, id) == LastWave(b, id)
  {
    if a != [] {
      var n := |a| - 1;
      assert SameButDependsOn(a[n], b[n]);
      assert forall i | 0 <= i < n :: SameButDependsOn(a[..n][i], b[..n][i]);
      LastWaveSame(a[..n], b[..n], id);
    }
  }

  lemma LatestSame(a: seq<RawLane>, b: seq<RawLane>)
    requires |a| == |b| && (forall i | 0 <= i < |a| :: SameButDependsOn(a[i], b[i])) && LastIsLatest(a)
    ensures LastIsLatest(b)
  {
    forall i | 0 <= i < |b| ensures b[i].wave.GetOr(1.0) <= LastWave(b, b[i].id).GetOr(1.0) {
      assert SameButDependsOn(a[i], b[i]);
      LastWaveSame(a, b, b[i].id);
    }
  }

  /** Dependencies do not decide whether paths are accepted. */
  lemma SharedAlike(a: RawContract, b: RawContract)
    requires OtherDependencies(a, b)
    ensures SharedByFirsts(a) ==> SharedByFirsts(b)
  {
    if SharedByFirsts(a) {
      forall i, j, path | Common(b.lanes, i, j, path)
        ensures path in b.sharedPaths.GetOr([]) && FirstShares(b.lanes, i, path)
      {
        assert SameButDependsOn(a.lanes[i], b.lanes[i]) && SameButDependsOn(a.lanes[j], b.lanes[j]);
        assert Common(a.lanes, i, j, path);
        var k :| 0 <= k < |a.lanes| && IsFirst(a.lanes, k) && a.lanes[k].id == a.lanes[i].id &&
                 RawShares(a.lanes[k], path);
        assert forall m | 0 <= m <= k :: SameButDependsOn(a.lanes[m], b.lanes[m]);
        assert IsFirst(b.lanes, k) && RawShares(b.lanes[k], path);
      }
    }
  }

  lemma WellFormedAlike(a: RawContract, b: RawContract)
    requires OtherDependencies(a, b)
    ensures WellFormed(a) ==> WellFormed(b)
  {
    if i :| 0 <= i < |b.lanes| && b.lanes[i].id == "" { assert SameButDependsOn(a.lanes[i], b.lanes[i]); }
  }

  /** The contract in which one lane depends on its own id, and no lane on anything else. */
  function DependsOnItself(raw: RawContract, i: nat): RawContract
    requires i < |raw.lanes|
  {
    raw.(lanes := seq(|raw.lanes|, k requires 0 <= k < |raw.lanes| =>
                          raw.lanes[k].(dependsOn := if k == i then Some([raw.lanes[i].id]) else None)))
  }

  lemma {:induction false} LastWaveKnown(lanes: seq<RawLane>, i: nat)
    requires i < |lanes|
    ensures LastWave(lanes, lanes[i].id).Some?
  {
    if i < |lanes| - 1 { LastWaveKnown(lanes[..|lanes| - 1], i); }
  }

  lemma SelfIsAccepted(raw: RawContract, i: nat)
    requires i < |raw.lanes| && raw.lanes[i].wave.GetOr(1.0) > LastWave(raw.lanes, raw.lanes[i].id).GetOr(1.0)
    ensures OtherDependencies(raw, DependsOnItself(raw, i)) && RawWavesAccepted(DependsOnItself(raw, i).lanes)
  {
    var self := DependsOnItself(raw, i);
    assert forall k | 0 <= k < |raw.lanes| :: SameButDependsOn(raw.lanes[k], self.lanes[k]);
    LastWaveKnown(raw.lanes, i);
    LastWaveSame(raw.lanes, self.lanes, raw.lanes[i].id);
  }

  /** The parsed contract has the dependencies of the given one. */
  lemma DependsAsGiven(raw: RawContract, i: nat, d: string, le: (string, string) -> bool)
    requires TotalPreorder(le) && ParseContract(raw, le).Ok? && i < |raw.lanes| && d in raw.lanes[i].dependsOn.GetOr([])
    ensures DependsOn(ParseContract(raw, le).value, raw.lanes[i].id, d)
  {
    var c := ParseContract(raw, le).value;
    ParsedParts(raw, le);
    ParsedLane(raw.lanes, i, le);
    SortedSetSpec(raw.lanes[i].dependsOn.GetOr([]), le);
    var n :| 0 <= n < |c.lanes| && c.lanes[n] == ParseLane(raw.lanes[i], le);
  }

  lemma SelfLoop(c: Contract, id: string)
    requires DependsOn(c, id, id)
    ensures !Acyclic(c)
  {
    var path := [id, id];
    assert DependencyPath(c, path);
    assert path[0] == path[|path| - 1];
  }

  /** If some lane has a later wave than the last lane of its id, a choice of dependencies is accepted that has a
      cycle. */
  lemma LaterAllowsCycle(raw: RawContract, modules: seq<string>, i: nat, le: (string, string) -> bool)
    requires TotalPreorder(le) && PlanResult(raw, modules, le).Ok? && i < |raw.lanes|
    requires raw.lanes[i].wave.GetOr(1.0) > LastWave(raw.lanes, raw.lanes[i].id).GetOr(1.0)
    ensures var self := DependsOnItself(raw, i);
            OtherDependencies(raw, self) && PlanResult(self, modules, le).Ok? && !Acyclic(ParseContract(self, le).value)
  {
    var self := DependsOnItself(raw, i);
    SelfIsAccepted(raw, i);
    AcceptedExactly(raw, modules, le);
    SharedAlike(raw, self);
    WellFormedAlike(raw, self);
    AcceptedExactly(self, modules, le);
    DependsAsGiven(self, i, raw.lanes[i].id, le);
    SelfLoop(ParseContract(self, le).value, raw.lanes[i].id);
  }

  /** For an accepted contract: every accepted choice of its dependencies is acyclic exactly if of the lanes with one id
      none has a later wave than the last. */
  lemma AcyclicExactly(raw: RawContract, modules: seq<string>, le: (string, string) -> bool)
    requires TotalPreorder(le) && PlanResult(raw, modules, le).Ok?
    ensures (forall other | OtherDependencies(raw, other) && PlanResult(other, modules, le).Ok? ::
               Acyclic(ParseContract(other, le).value))
            <==> LastIsLatest(raw.lanes)
  {
    if LastIsLatest(raw.lanes) {
      forall other | OtherDependencies(raw, other) && PlanResult(other, modules, le).Ok?
        ensures Acyclic(ParseContract(other, le).value)
      {
        LatestSame(raw.lanes, other.lanes);
        LatestIsAcyclic(other, modules, le);
      }
    } else {
      var i :| 0 <= i < |raw.lanes| && raw.lanes[i].wave.GetOr(1.0) > LastWave(raw.lanes, raw.lanes[i].id).GetOr(1.0);
      LaterAllowsCycle(raw, modules, i, le);
    }
  }

  /** Lane a in wave 3 depends on b, b in wave 2 on a, and a second lane a is in wave 1. */
  function CyclicContract(): RawContract {
    RawContract("1.0", "goal",
                [RawLane("a", None, None, Some(3.0), Some(["b"])), RawLane("b", None, None, Some(2.0), Some(["a"])),
                                RawLane("a", None, None, Some(1.0), None)], None)
  }

  lemma CyclicLastWaves()
    ensures LastWave(CyclicContract().lanes, "a") == Some(1.0) && LastWave(CyclicContract().lanes, "b") == Some(2.0)
  {
    var lanes := CyclicContract().lanes;
    assert "a"[0] != "b"[0];
    assert lanes[..2][1] == lanes[1];
  }

  lemma CyclicIsAccepted()
    ensures WellFormed(CyclicContract()) && SharedByFirsts(CyclicContract()) && RawWavesAccepted(CyclicContract().lanes)
  {
    assert "a"[0] == 'a' && "b"[0] == 'b';
    CyclicLastWaves();
  }

  /** The program accepts it, although a depends on b and b on a. */
  lemma DuplicateIdsAllowCycle(modules: seq<string>, le: (string, string) -> bool)
    requires TotalPreorder(le)
    ensures PlanResult(CyclicContract(), modules, le).Ok?
    ensures DependencyPath(ParseContract(CyclicContract(), le).value, ["a", "b", "a"])
  {
    CyclicIsAccepted();
    AcceptedExactly(CyclicContract(), modules, le);
    DependsAsGiven(CyclicContract(), 0, "b", le);
    DependsAsGiven(CyclicContract(), 1, "a", le);
    ThereAndBack(ParseContract(CyclicContract(), le).value, "a", "b");
  }

  lemma ThereAndBack(c: Contract, a: string, b: string)
    requires DependsOn(c, a, b) && DependsOn(c, b, a)
    ensures DependencyPath(c, [a, b, a])
  {
  }

  // ----- Dependencies first -----

  ghost predicate Earlier(lanes: seq<Lane>, i: int, dependency: string)
    requires 0 <= i < |lanes|
  {
    exists j | 0 <= j < i :: lanes[j].id == dependency && lanes[j].wave < lanes[i].wave
  }

  /** Every lane comes after, and in a later wave than, all lanes whose id it depends on. */
  ghost predicate AllEarlier(lanes: seq<Lane>) {
    forall i, j | 0 <= i < |lanes| && 0 <= j < |lanes| && lanes[j].id in lanes[i].dependsOn ::
      j < i && lanes[j].wave < lanes[i].wave
  }

  /** In plan order a lane of a smaller wave comes first. */
  lemma SmallerWaveEarlier(lanes: seq<Lane>, i: nat, j: nat, le: (string, string) -> bool)
    requires Sorted(lanes, PlanOrder(le)) && i < |lanes| && j < |lanes| && lanes[j].wave < lanes[i].wave
    ensures j < i
  {
    assert !PlanOrder(le)(lanes[i], lanes[j]);
  }

  lemma DependencyEarlier(c: Contract, lanes: seq<Lane>, i: nat, dependency: string, le: (string, string) -> bool)
    requires WavesAccepted(c) && Sorted(lanes, PlanOrder(le)) && forall lane :: lane in lanes <==> lane in c.lanes
    requires i < |lanes| && dependency in lanes[i].dependsOn
    ensures Earlier(lanes, i, dependency)
  {
    assert lanes[i] in c.lanes;
    assert LaneAccepted(c, lanes[i]) && DependencyAccepted(c, lanes[i], dependency);
    ByIdMember(c.lanes);
    var target := ById(c.lanes)[dependency];
    var j :| 0 <= j < |lanes| && lanes[j] == target;
    SmallerWaveEarlier(lanes, i, j, le);
  }

  lemma DependenciesEarlier(c: Contract, lanes: seq<Lane>, le: (string, string) -> bool)
    requires LatestById(c.lanes) && WavesAccepted(c) && Sorted(lanes, PlanOrder(le)) &&
             forall lane :: lane in lanes <==> lane in c.lanes
    ensures AllEarlier(lanes)
  {
    forall i, j | 0 <= i < |lanes| && 0 <= j < |lanes| && lanes[j].id in lanes[i].dependsOn
      ensures j < i && lanes[j].wave < lanes[i].wave
    {
      assert lanes[i] in c.lanes && lanes[j] in c.lanes;
      assert LaneAccepted(c, lanes[i]) && DependencyAccepted(c, lanes[i], lanes[j].id);
      SmallerWaveEarlier(lanes, i, j, le);
    }
  }

  lemma PlannedInOrder(c: Contract, modules: seq<string>, le: (string, string) -> bool)
    requires TotalPreorder(le) && forall lane | lane in c.lanes :: CanonicalLane(lane, le)
    ensures var lanes := PlanOf(c, modules, le).lanes;
            multiset(lanes) == multiset(c.lanes) && Sorted(lanes, PlanOrder(le)) &&
            forall lane :: lane in lanes <==> lane in c.lanes
  {
    PlanKeepsLanes(c, modules, le);
    PlanOrderIsPreorder(le);
    SortPermutes(c.lanes, PlanOrder(le));
    SortSorts(c.lanes, PlanOrder(le));
  }

  /** The emitted lanes are the contract's lanes; every dependency is strictly earlier and in a strictly smaller wave,
      and if the last lane of each id has the latest wave, so are all lanes with its id. */
  lemma PlanIsTopological(raw: RawContract, modules: seq<string>, le: (string, string) -> bool)
    requires TotalPreorder(le) && PlanResult(raw, modules, le).Ok?
    ensures var lanes := PlanResult(raw, modules, le).value.lanes;
            multiset(lanes) == multiset(ParseContract(raw, le).value.lanes) &&
            (forall i, dependency | 0 <= i < |lanes| && dependency in lanes[i].dependsOn ::
               Earlier(lanes, i, dependency)) &&
            (LastIsLatest(raw.lanes) ==> AllEarlier(lanes))
  {
    var c, lanes := ParseContract(raw, le).value, PlanResult(raw, modules, le).value.lanes;
    ParsedContract(raw, le);
    ParsedParts(raw, le);
    WavesVerdictSpec(c);
    PlannedInOrder(c, modules, le);
    forall i, dependency | 0 <= i < |lanes| && dependency in lanes[i].dependsOn ensures Earlier(lanes, i, dependency) {
      DependencyEarlier(c, lanes, i, dependency, le);
    }
    if LastIsLatest(raw.lanes) {
      LatestParsed(raw.lanes, le);
      DependenciesEarlier(c, lanes, le);
    }
  }
}
