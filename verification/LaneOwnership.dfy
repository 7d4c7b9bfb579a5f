/** Who owns a path in an accepted contract. Lane ids need not be distinct: what matters is which paths the lanes that
    the overlap check does not ask have in common with others. */
module LaneOwnership {
  import opened Text
  import opened Sorting
  import opened Orchestrator
  import opened GivenContracts

  // ----- Exclusive ownership -----

  /** Two lanes have a path in common only if it is shared globally and by each of them. */
  ghost predicate Exclusive(lanes: seq<Lane>, shared: seq<string>) {
    forall i, j, path | 0 <= i < |lanes| && 0 <= j < |lanes| && i != j && Allows(lanes[i], path) &&
                        Allows(lanes[j], path) ::
      path in shared && path in lanes[i].sharedPaths
  }

  /** The emitted lanes own their paths exclusively. */
  ghost predicate PlanIsExclusive(raw: RawContract, modules: seq<string>, le: (string, string) -> bool)
    requires PlanResult(raw, modules, le).Ok?
  {
    Exclusive(PlanResult(raw, modules, le).value.lanes, ParseContract(raw, le).value.sharedPaths)
  }

  lemma ExclusiveIsShared(raw: RawContract, lanes: seq<Lane>, shared: seq<string>, le: (string, string) -> bool)
    requires TotalPreorder(le) && multiset(lanes) == multiset(ParseLanes(raw.lanes, le))
    requires (forall path :: path in shared <==> path in raw.sharedPaths.GetOr([])) && Exclusive(lanes, shared)
    ensures SharedByAll(raw)
  {
    forall i, j, path | Common(raw.lanes, i, j, path)
      ensures path in raw.sharedPaths.GetOr([]) && RawShares(raw.lanes[i], path)
    {
      var m, n := PairParsed(raw.lanes, lanes, path, i, j, le);
      assert path in shared && path in lanes[m].sharedPaths;
      ParsedAllows(raw.lanes, i, path, le);
    }
  }

  lemma SharedIsExclusive(raw: RawContract, lanes: seq<Lane>, shared: seq<string>, le: (string, string) -> bool)
    requires TotalPreorder(le) && multiset(lanes) == multiset(ParseLanes(raw.lanes, le))
    requires (forall path :: path in shared <==> path in raw.sharedPaths.GetOr([])) && SharedByAll(raw)
    ensures Exclusive(lanes, shared)
  {
    forall m, n, path | 0 <= m < |lanes| && 0 <= n < |lanes| && m != n && Allows(lanes[m], path) &&
                        Allows(lanes[n], path)
      ensures path in shared && path in lanes[m].sharedPaths
    {
      var i, j := PairGiven(raw.lanes, lanes, path, m, n, le);
      assert path in raw.sharedPaths.GetOr([]) && RawShares(raw.lanes[i], path);
      ParsedAllows(raw.lanes, i, path, le);
    }
  }

  lemma PlanIsExclusiveAsGiven(raw: RawContract, modules: seq<string>, le: (string, string) -> bool)
    requires TotalPreorder(le) && PlanResult(raw, modules, le).Ok?
    ensures PlanIsExclusive(raw, modules, le) <==> SharedByAll(raw)
  {
    var c := ParseContract(raw, le).value;
    ParsedParts(raw, le);
    ParsedContract(raw, le);
    ParsedFromLanes(c, raw, le);
    PlanKeepsLanes(c, modules, le);
    var lanes := PlanResult(raw, modules, le).value.lanes;
    if Exclusive(lanes, c.sharedPaths) { ExclusiveIsShared(raw, lanes, c.sharedPaths, le); }
    if SharedByAll(raw) { SharedIsExclusive(raw, lanes, c.sharedPaths, le); }
  }

  /** Every lane but the first of its id lists as shared what it has in common with another. */
  ghost predicate LaterLanesShare(lanes: seq<RawLane>) {
    forall i, j, path | Common(lanes, i, j, path) && !IsFirst(lanes, i) :: RawShares(lanes[i], path)
  }

  /** An emitted plan gives every path at most one owner, unless it is shared by all of them, exactly if the lanes the
      check does not ask list their common paths as shared. */
  lemma ExclusiveExactly(raw: RawContract, modules: seq<string>, le: (string, string) -> bool)
    requires TotalPreorder(le) && PlanResult(raw, modules, le).Ok?
    ensures PlanIsExclusive(raw, modules, le) <==> LaterLanesShare(raw.lanes)
  {
    PlanIsExclusiveAsGiven(raw, modules, le);
    AcceptedExactly(raw, modules, le);
    if LaterLanesShare(raw.lanes) {
      forall i, j, path | Common(raw.lanes, i, j, path)
        ensures path in raw.sharedPaths.GetOr([]) && RawShares(raw.lanes[i], path)
      {
        if IsFirst(raw.lanes, i) { FirstSharesItself(raw.lanes, i, path); }
      }
    }
  }

  /** With distinct lane ids ownership is always exclusive. */
  lemma OwnershipIsExclusive(raw: RawContract, modules: seq<string>, le: (string, string) -> bool)
    requires TotalPreorder(le) && DistinctRawIds(raw.lanes) && PlanResult(raw, modules, le).Ok?
    ensures PlanIsExclusive(raw, modules, le)
  {
    ExclusiveExactly(raw, modules, le);
    assert forall i | 0 <= i < |raw.lanes| :: IsFirst(raw.lanes, i);
  }

  // ----- Which contracts leave it to the shared paths -----

  ghost predicate SameButShared(a: RawLane, b: RawLane) {
    a.id == b.id && a.allowedPaths == b.allowedPaths && a.wave == b.wave && a.dependsOn == b.dependsOn
  }

  /** The same contract with other shared paths, its own and its lanes'. */
  ghost predicate OtherSharing(a: RawContract, b: RawContract) {
    a.schemaVersion == b.schemaVersion && a.goal == b.goal && |a.lanes| == |b.lanes| &&
    forall i | 0 <= i < |a.lanes| :: SameButShared(a.lanes[i], b.lanes[i])
  }

  /** No lane but the first of its id has a path in common with another. */
  ghost predicate LaterLanesApart(lanes: seq<RawLane>) {
    forall i, j, path | Common(lanes, i, j, path) :: IsFirst(lanes, i)
  }

  lemma {:induction false} LastWaveUnshared(a: seq<RawLane>, b: seq<RawLane>, id: string)
    requires |a| == |b| && forall i | 0 <= i < |a| :: SameButShared(a[i], b[i])
    ensures LastWave(a, id) == LastWave(b, id)
  {
    if a != [] {
      var n := |a| - 1;
      assert SameButShared(a[n], b[n]);
      assert forall i | 0 <= i < n :: SameButShared(a[..n][i], b[..n][i]);
      LastWaveUnshared(a[..n], b[..n], id);
    }
  }

  lemma WellFormedAlike(a: RawContract, b: RawContract)
    requires OtherSharing(a, b)
    ensures WellFormed(a) ==> WellFormed(b)
  {
    if i :| 0 <= i < |b.lanes| && b.lanes[i].id == "" { assert SameButShared(a.lanes[i], b.lanes[i]); }
  }

  lemma SameRawWaves(a: seq<RawLane>, b: seq<RawLane>)
    requires |a| == |b| && forall i | 0 <= i < |a| :: SameButShared(a[i], b[i])
    ensures RawWavesAccepted(a) ==> RawWavesAccepted(b)
  {
    if RawWavesAccepted(a) {
      forall i | 0 <= i < |b| ensures RawLaneAccepted(b, i) {
        assert SameButShared(a[i], b[i]) && RawLaneAccepted(a, i);
        forall d ensures LastWave(a, d) == LastWave(b, d) { LastWaveUnshared(a, b, d); }
      }
    }
  }

  lemma SameFirsts(a: seq<RawLane>, b: seq<RawLane>, i: nat)
    requires |a| == |b| && (forall k | 0 <= k < |a| :: SameButShared(a[k], b[k])) && i < |a|
    ensures IsFirst(a, i) <==> IsFirst(b, i)
  {
    assert forall k | 0 <= k <= i :: SameButShared(a[k], b[k]);
  }

  lemma SameCommon(a: seq<RawLane>, b: seq<RawLane>, i: nat, j: nat, path: string)
    requires |a| == |b| && forall k | 0 <= k < |a| :: SameButShared(a[k], b[k])
    ensures Common(a, i, j, path) <==> Common(b, i, j, path)
  {
    if i < |a| && j < |a| { assert SameButShared(a[i], b[i]) && SameButShared(a[j], b[j]); }
  }

  lemma StillApart(a: RawContract, b: RawContract)
    requires OtherSharing(a, b) && LaterLanesApart(a.lanes)
    ensures LaterLanesShare(b.lanes)
  {
    forall i, j, path | Common(b.lanes, i, j, path) ensures IsFirst(b.lanes, i) {
      SameCommon(a.lanes, b.lanes, i, j, path);
      SameFirsts(a.lanes, b.lanes, i);
    }
  }

  function AllRawPaths(lanes: seq<RawLane>): seq<string> {
    if lanes == [] then [] else AllRawPaths(lanes[..|lanes| - 1]) + lanes[|lanes| - 1].allowedPaths.GetOr([])
  }

  lemma {:induction false} InAllRawPaths(lanes: seq<RawLane>, i: nat, path: string)
    requires i < |lanes| && RawAllows(lanes[i], path)
    ensures path in AllRawPaths(lanes)
  {
    if i < |lanes| - 1 { InAllRawPaths(lanes[..|lanes| - 1], i, path); }
  }

  /** The contract in which all paths are shared, by the first lane of each id and by no other. */
  function SharedByFirstOnly(raw: RawContract): RawContract {
    var all := AllRawPaths(raw.lanes);
    raw.(sharedPaths := Some(all),
         lanes := seq(|raw.lanes|, k requires 0 <= k < |raw.lanes| =>
                          raw.lanes[k].(sharedPaths := if IsFirst(raw.lanes, k) then Some(all) else None)))
  }

  lemma FirstOnlyIsOther(raw: RawContract)
    ensures OtherSharing(raw, SharedByFirstOnly(raw))
  {
  }

  lemma FirstOnlyIsShared(raw: RawContract)
    ensures SharedByFirsts(SharedByFirstOnly(raw))
  {
    var other := SharedByFirstOnly(raw);
    FirstOnlyIsOther(raw);
    forall i, j, path | Common(other.lanes, i, j, path)
      ensures path in other.sharedPaths.GetOr([]) && FirstShares(other.lanes, i, path)
    {
      SameCommon(raw.lanes, other.lanes, i, j, path);
      InAllRawPaths(raw.lanes, i, path);
      var k := FirstOfId(raw.lanes, i);
      SameFirsts(raw.lanes, other.lanes, k);
      assert RawShares(other.lanes[k], path);
    }
  }

  lemma FirstOnlyIsAccepted(raw: RawContract, modules: seq<string>, le: (string, string) -> bool)
    requires TotalPreorder(le) && PlanResult(raw, modules, le).Ok?
    ensures PlanResult(SharedByFirstOnly(raw), modules, le).Ok?
  {
    var other := SharedByFirstOnly(raw);
    FirstOnlyIsOther(raw);
    FirstOnlyIsShared(raw);
    AcceptedExactly(raw, modules, le);
    WellFormedAlike(raw, other);
    SameRawWaves(raw.lanes, other.lanes);
    AcceptedExactly(other, modules, le);
  }

  lemma FirstOnlyLeavesLater(raw: RawContract, i: nat, j: nat, path: string)
    requires Common(raw.lanes, i, j, path) && !IsFirst(raw.lanes, i)
    ensures !LaterLanesShare(SharedByFirstOnly(raw).lanes)
  {
    var other := SharedByFirstOnly(raw);
    FirstOnlyIsOther(raw);
    SameCommon(raw.lanes, other.lanes, i, j, path);
    SameFirsts(raw.lanes, other.lanes, i);
    assert !RawShares(other.lanes[i], path);
  }

  /** If a later lane has a path in common with another, some accepted sharing leaves it with two owners, one of which
      does not share it. */
  lemma CommonLaterLane(raw: RawContract, modules: seq<string>, i: nat, j: nat, path: string,
                        le: (string, string) -> bool)
    requires TotalPreorder(le) && PlanResult(raw, modules, le).Ok?
    requires Common(raw.lanes, i, j, path) && !IsFirst(raw.lanes, i)
    ensures var other := SharedByFirstOnly(raw);
            OtherSharing(raw, other) && PlanResult(other, modules, le).Ok? && !PlanIsExclusive(other, modules, le)
  {
    FirstOnlyIsOther(raw);
    FirstOnlyIsAccepted(raw, modules, le);
    FirstOnlyLeavesLater(raw, i, j, path);
    ExclusiveExactly(SharedByFirstOnly(raw), modules, le);
  }

  /** For an accepted contract: every accepted choice of its shared paths gives exclusive ownership exactly if no lane
      but the first of its id has a path in common with another. */
  lemma ExclusiveForAllSharings(raw: RawContract, modules: seq<string>, le: (string, string) -> bool)
    requires TotalPreorder(le) && PlanResult(raw, modules, le).Ok?
    ensures (forall other | OtherSharing(raw, other) && PlanResult(other, modules, le).Ok? ::
               PlanIsExclusive(other, modules, le))
            <==> LaterLanesApart(raw.lanes)
  {
    if LaterLanesApart(raw.lanes) {
      forall other | OtherSharing(raw, other) && PlanResult(other, modules, le).Ok?
        ensures PlanIsExclusive(other, modules, le)
      {
        StillApart(raw, other);
        ExclusiveExactly(other, modules, le);
      }
    } else {
      var i, j, path :| Common(raw.lanes, i, j, path) && !IsFirst(raw.lanes, i);
      CommonLaterLane(raw, modules, i, j, path, le);
    }
  }

  /** Two lanes a allow the path p, and only the first lists it as shared. */
  function TwoOwnersContract(): RawContract {
    RawContract("1.0", "goal",
                [RawLane("a", Some(["p"]), Some(["p"]), None, None), RawLane("a", Some(["p"]), None, None, None)],
                Some(["p"]))
  }

  lemma TwoOwnersShares()
    ensures WellFormed(TwoOwnersContract()) && SharedByFirsts(TwoOwnersContract())
    ensures RawWavesAccepted(TwoOwnersContract().lanes) && !LaterLanesShare(TwoOwnersContract().lanes)
  {
    assert "a"[0] == 'a';
    var lanes := TwoOwnersContract().lanes;
    assert IsFirst(lanes, 0) && RawShares(lanes[0], "p");
    assert Common(lanes, 1, 0, "p") && !IsFirst(lanes, 1) && !RawShares(lanes[1], "p");
  }

  /** It gets a plan, although the second lane owns p without sharing it. */
  lemma DuplicateIdsShareSilently(modules: seq<string>, le: (string, string) -> bool)
    requires TotalPreorder(le)
    ensures PlanResult(TwoOwnersContract(), modules, le).Ok? && !PlanIsExclusive(TwoOwnersContract(), modules, le)
  {
    TwoOwnersShares();
    AcceptedExactly(TwoOwnersContract(), modules, le);
    ExclusiveExactly(TwoOwnersContract(), modules, le);
  }
}
