/** Which instants are sampled, which anchors are live at them, and which chain a service can use. */
module TrustPaths {
  import opened Ordering
  import opened Outcomes
  import opened Snapshots

  // --- Time ---

  const MINUTE: int := 60_000_000_000
  const MAX_DURATION: int := 0x7FFF_FFFF_FFFF_FFFF
  const MIN_DURATION: int := -0x8000_0000_0000_0000

  /** Time.Sub: the difference, saturated to a 64-bit duration. */
  function Sub(t: Instant, u: Instant): int {
    if t - u > MAX_DURATION then MAX_DURATION
    else if t - u < MIN_DURATION then MIN_DURATION
    else t - u
  }

  /** Go's division of a duration by two, truncating toward zero. */
  function Halve(d: int): int {
    if d >= 0 then d / 2 else -((-d) / 2)
  }

  function Midpoint(config: ScenarioConfig): Instant {
    config.overlapStart + Halve(Sub(config.overlapEnd, config.overlapStart))
  }

  function GeneratedTimes(config: ScenarioConfig): seq<Instant> {
    [config.overlapStart - MINUTE, config.overlapStart, Midpoint(config),
     config.overlapEnd, config.overlapEnd + MINUTE, config.simulationTime]
  }

  function CriticalTimes(config: ScenarioConfig): seq<Instant> {
    SortedSet(GeneratedTimes(config))
  }

  function TimeKey(t: Instant): int { t }

  /** Drops repeats from a sorted slice within its own array: what is kept lies in points[..kept]. */
  method Compact(points: array<Instant>) returns (kept: nat)
    requires forall i, j :: 0 <= i < j < points.Length ==> points[i] <= points[j]
    modifies points
    ensures kept <= points.Length && Increasing(points[..kept])
    ensures SameMembers(points[..kept], old(points[..]))
  {
    ghost var sorted := points[..];
    kept := 0;
    for k := 0 to points.Length
      invariant kept <= k && (k > 0 ==> kept > 0)
      invariant forall i :: k <= i < points.Length ==> points[i] == sorted[i]  // unread, unchanged
      invariant Increasing(points[..kept])
      invariant SameMembers(points[..kept], sorted[..k])
      invariant kept > 0 ==> points[kept - 1] == sorted[k - 1]
    {
      var point := points[k];
      ghost var before := points[..kept];
      if kept == 0 || point != points[kept - 1] {
        points[kept] := point;
        kept := kept + 1;
        assert points[..kept] == before + [point];
      }
      assert sorted[..k + 1] == sorted[..k] + [point];
    }
    assert sorted[..points.Length] == sorted;
  }

  method SortAndCompact(points: array<Instant>) returns (r: seq<Instant>)
    modifies points
    ensures Increasing(r) && SameMembers(r, old(points[..]))
  {
    SortSlice(points, TimeKey);
    assert forall i :: 0 <= i < points.Length ==> TimeKey(points[..][i]) == points[i];
    forall t ensures t in points[..] <==> t in old(points[..]) {
      assert t in points[..] <==> t in multiset(points[..]);
      assert t in old(points[..]) <==> t in multiset(old(points[..]));
    }
    var kept := Compact(points);
    r := points[..kept];
  }

  /**
   The middle of the overlap, rounded down to a nanosecond. Go cuts a duration at 2^63 - 1
   nanoseconds, so the middle of a longer overlap lies half of that after its start.
   */
  ghost predicate InTheMiddle(start: Instant, end: Instant, t: Instant) {
    if end - start <= 9_223_372_036_854_775_807 then 2 * (t - start) <= end - start < 2 * (t - start) + 2
    else t == start + 4_611_686_018_427_387_903
  }

  /** The bounds of the overlap, one minute outside them, its middle and the simulation time. */
  ghost predicate Judged(config: ScenarioConfig, t: Instant) {
    || t == config.overlapStart - 60_000_000_000
    || t == config.overlapStart
    || InTheMiddle(config.overlapStart, config.overlapEnd, t)
    || t == config.overlapEnd
    || t == config.overlapEnd + 60_000_000_000
    || t == config.simulationTime
  }

  lemma JudgedExact(config: ScenarioConfig, t: Instant)
    requires config.overlapStart < config.overlapEnd
    ensures t in CriticalTimes(config) <==> Judged(config, t)
  {
    var g := GeneratedTimes(config);
    assert t in g <==> t == g[0] || t == g[1] || t == g[2] || t == g[3] || t == g[4] || t == g[5];
  }

  /** Sorts the six instants in place and compacts them in the same array. */
  method SampleTimes(config: ScenarioConfig) returns (r: seq<Instant>)
    ensures r == CriticalTimes(config)
    ensures config.overlapStart < config.overlapEnd ==> forall t :: t in r <==> Judged(config, t)
  {
    forall t | config.overlapStart < config.overlapEnd
      ensures t in CriticalTimes(config) <==> Judged(config, t)
    {
      JudgedExact(config, t);
    }
    var generated := GeneratedTimes(config);
    var points := new Instant[|generated|](i requires 0 <= i < |generated| => generated[i]);
    assert points[..] == generated;
    r := SortAndCompact(points);
    IncreasingIsUnique(r, SortedSet(generated));
  }

  /** On an accepted configuration four to six instants are sampled, in ascending order. */
  lemma CriticalTimesAreOrdered(config: ScenarioConfig)
    requires config.overlapStart < config.overlapEnd
    ensures config.overlapStart <= Midpoint(config) < config.overlapEnd
    ensures Increasing(CriticalTimes(config)) && 4 <= |CriticalTimes(config)| <= 6
    ensures SameMembers(CriticalTimes(config), GeneratedTimes(config))
  {
    var g := GeneratedTimes(config);
    assert g[0] in g && g[1] in g && g[3] in g && g[4] in g;
    FourMembers(CriticalTimes(config), g[0], g[1], g[3], g[4]);
  }

  lemma FourMembers(r: seq<int>, w: int, x: int, y: int, z: int)
    requires Increasing(r) && w < x < y < z
    requires w in r && x in r && y in r && z in r
    ensures |r| >= 4
  {
  }

  /** Each of the three anchor regimes is sampled. */
  lemma EveryRegimeIsSampled(config: ScenarioConfig)
    requires config.overlapStart < config.overlapEnd
    ensures var before, within, after :=
        config.overlapStart - MINUTE, config.overlapStart, config.overlapEnd + MINUTE;
      && before in CriticalTimes(config) && within in CriticalTimes(config)
      && after in CriticalTimes(config)
      && ActiveAnchors(config, before) == {config.oldAnchorId}
      && ActiveAnchors(config, within) == {config.oldAnchorId, config.newAnchorId}
      && ActiveAnchors(config, after) == {config.newAnchorId}
  {
  }

  // --- Live anchors ---

  /** The old anchor is live up to the end of the overlap, the new one from its start on. */
  function ActiveAnchors(config: ScenarioConfig, at: Instant): (r: set<Id>)
    ensures r <= {config.oldAnchorId, config.newAnchorId}
    ensures config.overlapStart <= config.overlapEnd && config.oldAnchorId != config.newAnchorId ==>
      && (config.oldAnchorId in r <==> at <= config.overlapEnd)
      && (config.newAnchorId in r <==> at >= config.overlapStart)
  {
    if at < config.overlapStart then {config.oldAnchorId}
    else if at > config.overlapEnd then {config.newAnchorId}
    else {config.oldAnchorId, config.newAnchorId}
  }

  /** The keys of a Go map, in ascending order whatever order the map yields them. */
  method MapKeys(values: set<Id>) returns (r: seq<Id>)
    ensures Increasing(r)
    ensures forall x :: x in r <==> x in values
  {
    var remaining := values;
    var keys: seq<Id> := [];
    while remaining != {}
      invariant remaining <= values
      invariant forall x :: x in keys <==> x in values && x !in remaining
      invariant DistinctBy(keys, IdKey)
      decreases remaining
    {
      var key :| key in remaining;
      remaining := remaining - {key};
      keys := keys + [key];
    }
    var slice := new Id[|keys|](i requires 0 <= i < |keys| => keys[i]);
    assert slice[..] == keys;
    SortSlice(slice, IdKey);
    r := slice[..];
    DistinctSortedIsStrict(r, keys, IdKey);
    assert forall i :: 0 <= i < |r| ==> IdKey(r[i]) == r[i];
  }

  // --- Direct reachability ---

  datatype Rejection =
    | NotActive(code: string)
    | OutsideWindow(code: string)
    | NotValidated(code: string)
    | AnchorUnavailable(code: string)
    | NotTrusted(serviceCode: string, anchorId: Id)

  datatype Reason =
    | Reachable
    | ChainMissing
    | NoMatchingChain
    | NoUsableChain(rejections: seq<Rejection>)
    | AbsentOrInactive
    | CycleEncountered
    | Upstream(code: string, cause: Reason)

  datatype Evidence = Evidence(
    serviceId: Id, serviceCode: string, reachable: bool,
    selectedChainId: Id, selectedAnchorId: Id, reason: Reason)

  type ChainTable = map<Id, ChainSnapshot>

  /** The conditions of a usable chain, in the order of the checks. */
  ghost predicate Passes(n: nat, service: ServiceSnapshot, chain: ChainSnapshot, at: Instant,
                         active: set<Id>)
  {
    && (n > 0 ==> chain.state != Revoked && chain.state != Deprecated)
    && (n > 1 ==> chain.validFrom <= at < chain.validTo)
    && (n > 2 ==> chain.validationValid)
    && (n > 3 ==> chain.anchorId in active)
    && (n > 4 ==> chain.anchorId in service.trustAnchorIds)
  }

  /** The number of checks passed before this one failed. */
  function PassedBefore(r: Rejection): nat {
    match r
    case NotActive(_) => 0
    case OutsideWindow(_) => 1
    case NotValidated(_) => 2
    case AnchorUnavailable(_) => 3
    case NotTrusted(_, _) => 4
  }

  /** A missing trust is blamed on the service and its anchor, everything else on the chain. */
  predicate Names(r: Rejection, service: ServiceSnapshot, chain: ChainSnapshot) {
    match r
    case NotTrusted(code, anchorId) => code == service.code && anchorId == chain.anchorId
    case _ => r.code == chain.code
  }

  /** The first check a chain fails for a service; none when it passes all five. */
  function Refusal(service: ServiceSnapshot, chain: ChainSnapshot, at: Instant, active: set<Id>)
    : (r: Option<Rejection>)
    ensures r.None? <==> Passes(5, service, chain, at, active)
    ensures r.Some? ==>
      && Names(r.value, service, chain)
      && Passes(PassedBefore(r.value), service, chain, at, active)
      && !Passes(PassedBefore(r.value) + 1, service, chain, at, active)
  {
    if chain.state == Revoked || chain.state == Deprecated then Some(NotActive(chain.code))
    else if at < chain.validFrom || !(at < chain.validTo) then Some(OutsideWindow(chain.code))
    else if !chain.validationValid then Some(NotValidated(chain.code))
    else if chain.anchorId !in active then Some(AnchorUnavailable(chain.code))
    else if chain.anchorId !in service.trustAnchorIds then
      Some(NotTrusted(service.code, chain.anchorId))
    else None
  }

  function Found(service: ServiceSnapshot, chainId: Id, anchorId: Id): Evidence {
    Evidence(service.id, service.code, true, chainId, anchorId, Reachable)
  }

  function Unreached(service: ServiceSnapshot, reason: Reason): Evidence {
    Evidence(service.id, service.code, false, 0, 0, reason)
  }

  function NoneUsable(rejections: seq<Rejection>): Reason {
    if rejections == [] then NoMatchingChain else NoUsableChain(rejections)
  }

  function Scan(service: ServiceSnapshot, leaf: string, at: Instant, active: set<Id>,
                chains: ChainTable, ids: seq<Id>, rejections: seq<Rejection>): Evidence
  {
    if ids == [] then Unreached(service, NoneUsable(rejections))
    else if ids[0] !in chains || chains[ids[0]].leafSubject != leaf then
      Scan(service, leaf, at, active, chains, ids[1..], rejections)
    else
      match Refusal(service, chains[ids[0]], at, active)
      case Some(why) => Scan(service, leaf, at, active, chains, ids[1..], rejections + [why])
      case None => Found(service, ids[0], chains[ids[0]].anchorId)
  }

  function Direct(service: ServiceSnapshot, at: Instant, active: set<Id>, candidates: seq<Id>,
                  chains: ChainTable): Evidence
  {
    if service.chainId !in chains then Unreached(service, ChainMissing)
    else Scan(service, chains[service.chainId].leafSubject, at, active, chains,
              SortedUnique([service.chainId] + candidates), [])
  }

  method EvaluateDirect(service: ServiceSnapshot, at: Instant, active: set<Id>,
                        candidates: seq<Id>, chains: ChainTable) returns (e: Evidence)
    ensures e == Direct(service, at, active, candidates, chains)
  {
    if service.chainId !in chains {
      return Unreached(service, ChainMissing);
    }
    var leaf := chains[service.chainId].leafSubject;
    var ids := CollectUnique([service.chainId] + candidates);
    var rejections := [];
    for k := 0 to |ids|
      invariant Scan(service, leaf, at, active, chains, ids, [])
             == Scan(service, leaf, at, active, chains, ids[k..], rejections)
    {
      var id := ids[k];
      assert ids[k..][0] == id && ids[k..][1..] == ids[k + 1..];
      if id !in chains || chains[id].leafSubject != leaf {
        continue;
      }
      var refusal := Refusal(service, chains[id], at, active);
      if refusal.None? {
        return Found(service, id, chains[id].anchorId);
      }
      rejections := rejections + [refusal.value];
    }
    return Unreached(service, NoneUsable(rejections));
  }

  /** All five conditions at once, independent of the order in which they are checked. */
  ghost predicate Usable(service: ServiceSnapshot, chain: ChainSnapshot, at: Instant,
                         active: set<Id>)
  {
    Passes(5, service, chain, at, active)
  }

  ghost predicate UsableId(service: ServiceSnapshot, leaf: string, at: Instant, active: set<Id>,
                           chains: ChainTable, id: Id)
  {
    id in chains && chains[id].leafSubject == leaf && Usable(service, chains[id], at, active)
  }

  ghost predicate LeastUsable(e: Evidence, service: ServiceSnapshot, leaf: string, at: Instant,
                              active: set<Id>, chains: ChainTable, ids: seq<Id>)
  {
    var chosen := e.selectedChainId;
    && chosen in ids && UsableId(service, leaf, at, active, chains, chosen)
    && (forall id :: id in ids && UsableId(service, leaf, at, active, chains, id) ==> chosen <= id)
    && e == Evidence(service.id, service.code, true, chosen, chains[chosen].anchorId, Reachable)
    && e.selectedAnchorId in active && e.selectedAnchorId in service.trustAnchorIds
  }

  function SameLeaf(ids: seq<Id>, leaf: string, chains: ChainTable): (r: seq<Id>)
    ensures forall id :: id in r <==> id in ids && id in chains && chains[id].leafSubject == leaf
  {
    if ids == [] then []
    else
      assert forall id :: id in ids <==> id == ids[0] || id in ids[1..];
      (if ids[0] in chains && chains[ids[0]].leafSubject == leaf then [ids[0]] else [])
      + SameLeaf(ids[1..], leaf, chains)
  }

  /** One rejection for each listed chain, in the order of the list. */
  ghost predicate Explains(rejections: seq<Rejection>, service: ServiceSnapshot, at: Instant,
                           active: set<Id>, chains: ChainTable, ids: seq<Id>)
  {
    |rejections| == |ids| && forall k :: 0 <= k < |ids| ==>
      ids[k] in chains && Refusal(service, chains[ids[k]], at, active) == Some(rejections[k])
  }

  lemma {:induction false} ScanFinds(service: ServiceSnapshot, leaf: string, at: Instant,
      active: set<Id>, chains: ChainTable, ids: seq<Id>, rejections: seq<Rejection>)
    requires Increasing(ids)
    ensures var e := Scan(service, leaf, at, active, chains, ids, rejections);
      if e.reachable then LeastUsable(e, service, leaf, at, active, chains, ids)
      else forall id :: id in ids ==> !UsableId(service, leaf, at, active, chains, id)
  {
    if ids != [] {
      assert forall id :: id in ids <==> id == ids[0] || id in ids[1..];
      var skipped := ids[0] !in chains || chains[ids[0]].leafSubject != leaf;
      if skipped {
        ScanFinds(service, leaf, at, active, chains, ids[1..], rejections);
      } else {
        var refusal := Refusal(service, chains[ids[0]], at, active);
        if refusal.Some? {
          ScanFinds(service, leaf, at, active, chains, ids[1..], rejections + [refusal.value]);
        }
      }
    }
  }

  lemma {:induction false} ScanExplains(service: ServiceSnapshot, leaf: string, at: Instant,
      active: set<Id>, chains: ChainTable, ids: seq<Id>, rejections: seq<Rejection>)
    returns (more: seq<Rejection>)
    requires !Scan(service, leaf, at, active, chains, ids, rejections).reachable
    ensures Explains(more, service, at, active, chains, SameLeaf(ids, leaf, chains))
    ensures Scan(service, leaf, at, active, chains, ids, rejections)
         == Unreached(service, NoneUsable(rejections + more))
  {
    if ids == [] {
      more := [];
      assert rejections + more == rejections;
    } else if ids[0] !in chains || chains[ids[0]].leafSubject != leaf {
      more := ScanExplains(service, leaf, at, active, chains, ids[1..], rejections);
      assert SameLeaf(ids, leaf, chains) == SameLeaf(ids[1..], leaf, chains);
    } else {
      var why := Refusal(service, chains[ids[0]], at, active).value;
      var rest := ScanExplains(service, leaf, at, active, chains, ids[1..], rejections + [why]);
      more := [why] + rest;
      assert rejections + [why] + rest == rejections + more;
    }
  }

  /**
   A service is directly reachable exactly when some chain among its own and the candidates carries
   the same leaf subject and passes every check, and the least such id is selected. Otherwise the
   reason lists one refusal per chain of that leaf, in ascending order.
   */
  lemma DirectExact(service: ServiceSnapshot, at: Instant, active: set<Id>, candidates: seq<Id>,
                    chains: ChainTable)
    requires service.chainId in chains
    ensures var e := Direct(service, at, active, candidates, chains);
      var leaf := chains[service.chainId].leafSubject;
      var ids := SortedUnique([service.chainId] + candidates);
      if e.reachable then LeastUsable(e, service, leaf, at, active, chains, ids)
      else
        && e == Evidence(service.id, service.code, false, 0, 0, e.reason)
        && (forall id :: id in ids ==> !UsableId(service, leaf, at, active, chains, id))
        && match e.reason
           case NoUsableChain(rejections) =>
             Explains(rejections, service, at, active, chains, SameLeaf(ids, leaf, chains))
           case NoMatchingChain => service.chainId == 0 && SameLeaf(ids, leaf, chains) == []
           case _ => false
  {
    var ids := SortedUnique([service.chainId] + candidates);
    var leaf := chains[service.chainId].leafSubject;
    ScanFinds(service, leaf, at, active, chains, ids, []);
    if !Direct(service, at, active, candidates, chains).reachable {
      var rejections := ScanExplains(service, leaf, at, active, chains, ids, []);
      assert [] + rejections == rejections;
      assert service.chainId in [service.chainId] + candidates;
      assert service.chainId > 0 ==> service.chainId in SameLeaf(ids, leaf, chains);
    }
  }

  lemma DirectIgnoresCandidateOrder(service: ServiceSnapshot, at: Instant, active: set<Id>,
                                    candidates: seq<Id>, candidates': seq<Id>, chains: ChainTable)
    requires SamePositiveMembers(candidates, candidates')
    ensures Direct(service, at, active, candidates, chains)
         == Direct(service, at, active, candidates', chains)
  {
    SortedUniqueDetermined([service.chainId] + candidates, [service.chainId] + candidates');
  }

  /** The instants at which a chain passes every check form an interval. */
  lemma UsabilityIsAnInterval(config: ScenarioConfig, service: ServiceSnapshot,
                              chain: ChainSnapshot, p: Instant, t: Instant, q: Instant)
    requires p <= t <= q
    requires Usable(service, chain, p, ActiveAnchors(config, p))
    requires Usable(service, chain, q, ActiveAnchors(config, q))
    ensures Usable(service, chain, t, ActiveAnchors(config, t))
  {
  }
}
