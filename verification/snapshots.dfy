/**
 The frozen input of a rollover simulation and its canonical form.
 Instants are whole nanoseconds since the zero time of Go's clock, so the zero time is 0.
 */
module Snapshots {
  import opened Ordering

  type Id = nat
  type Instant = int

  const VERSION := "trust-path-window-v1.0.0"

  datatype ChainState = Imported | Validated | Deprecated | Revoked
  datatype ServiceState = Active | Inactive

  datatype AnchorSnapshot = AnchorSnapshot(
    id: Id, code: string, state: string, notBefore: Instant, notAfter: Instant, revoked: bool)

  datatype ChainSnapshot = ChainSnapshot(
    id: Id, code: string, anchorId: Id, leafSubject: string,
    validFrom: Instant, validTo: Instant, state: ChainState, validationValid: bool)

  datatype ServiceSnapshot = ServiceSnapshot(
    id: Id, code: string, chainId: Id, trustAnchorIds: seq<Id>, dependencyIds: seq<Id>,
    criticality: string, state: ServiceState)

  datatype ScenarioConfig = ScenarioConfig(
    name: string, oldAnchorId: Id, newAnchorId: Id, overlapStart: Instant, overlapEnd: Instant,
    candidateChainIds: seq<Id>, simulationTime: Instant)

  datatype Snapshot = Snapshot(
    version: string, config: ScenarioConfig, anchors: seq<AnchorSnapshot>,
    chains: seq<ChainSnapshot>, services: seq<ServiceSnapshot>)

  function AnchorKey(a: AnchorSnapshot): int { a.id }
  function ChainKey(c: ChainSnapshot): int { c.id }
  function ServiceKey(s: ServiceSnapshot): int { s.id }
  function IdKey(x: Id): int { x }

  // --- Identifier lists ---

  ghost predicate SamePositiveMembers(a: seq<Id>, b: seq<Id>) {
    forall x: Id :: x > 0 ==> (x in a <==> x in b)
  }

  function Positive(values: seq<Id>): (r: seq<Id>)
    ensures forall x :: x in r <==> x in values && x > 0
  {
    if values == [] then []
    else
      var n := |values| - 1;
      assert forall x :: x in values <==> x in values[..n] || x == values[n];
      Positive(values[..n]) + if values[n] > 0 then [values[n]] else []
  }

  /** The positive members of a list, each once, in ascending order. */
  function SortedUnique(values: seq<Id>): (r: seq<Id>)
    ensures Increasing(r)
    ensures forall x :: x in r <==> x in values && x > 0
  {
    var r := SortedSet(Positive(values));
    assert forall i :: 0 <= i < |r| ==> r[i] in r && r[i] > 0;
    r
  }

  /** The deduplicated list depends on the positive members alone, not on order or repetition. */
  lemma SortedUniqueDetermined(a: seq<Id>, b: seq<Id>)
    requires SamePositiveMembers(a, b)
    ensures SortedUnique(a) == SortedUnique(b)
  {
    IncreasingIsUnique(SortedUnique(a), SortedUnique(b));
  }

  method CollectUnique(values: seq<Id>) returns (r: seq<Id>)
    ensures r == SortedUnique(values)
  {
    var seen: set<Id> := {};
    var kept: seq<Id> := [];
    for i := 0 to |values|
      invariant forall x :: x in kept <==> x in values[..i] && x > 0
      invariant forall x :: x in seen <==> x in kept
      invariant DistinctBy(kept, IdKey)
    {
      if values[i] > 0 && values[i] !in seen {
        seen := seen + {values[i]};
        kept := kept + [values[i]];
      }
      assert values[..i + 1] == values[..i] + [values[i]];
    }
    var slice := new Id[|kept|](i requires 0 <= i < |kept| => kept[i]);
    assert slice[..] == kept;
    assert values[..|values|] == values;
    SortSlice(slice, IdKey);
    r := slice[..];
    DistinctSortedIsStrict(r, kept, IdKey);
    assert forall i :: 0 <= i < |r| ==> IdKey(r[i]) == r[i];
    IncreasingIsUnique(r, SortedUnique(values));
  }

  // --- Canonical snapshots ---

  function Normalise(s: ServiceSnapshot): ServiceSnapshot {
    s.(trustAnchorIds := SortedUnique(s.trustAnchorIds),
       dependencyIds := SortedUnique(s.dependencyIds))
  }

  function NormaliseAll(services: seq<ServiceSnapshot>): seq<ServiceSnapshot> {
    seq(|services|, i requires 0 <= i < |services| => Normalise(services[i]))
  }

  ghost predicate DistinctIds(anchors: seq<AnchorSnapshot>, chains: seq<ChainSnapshot>,
                              services: seq<ServiceSnapshot>) {
    DistinctBy(anchors, AnchorKey) && DistinctBy(chains, ChainKey) && DistinctBy(services, ServiceKey)
  }

  ghost predicate IsCanonicalOf(s: Snapshot, config: ScenarioConfig, anchors: seq<AnchorSnapshot>,
                                chains: seq<ChainSnapshot>, services: seq<ServiceSnapshot>) {
    && s.version == VERSION
    && s.config == config.(candidateChainIds := SortedUnique(config.candidateChainIds))
    && SortedBy(s.anchors, AnchorKey) && multiset(s.anchors) == multiset(anchors)
    && SortedBy(s.chains, ChainKey) && multiset(s.chains) == multiset(chains)
    && SortedBy(s.services, ServiceKey)
    && multiset(s.services) == multiset(NormaliseAll(services))
  }

  method NewSnapshot(config: ScenarioConfig, anchors: array<AnchorSnapshot>,
                     chains: array<ChainSnapshot>, services: array<ServiceSnapshot>)
    returns (s: Snapshot)
    modifies anchors, chains, services
    ensures IsCanonicalOf(s, config, old(anchors[..]), old(chains[..]), old(services[..]))
    ensures anchors[..] == s.anchors && chains[..] == s.chains && services[..] == s.services
  {
    var candidates := CollectUnique(config.candidateChainIds);
    SortSlice(anchors, AnchorKey);
    SortSlice(chains, ChainKey);
    SortSlice(services, ServiceKey);
    ghost var sorted, sortedAnchors, sortedChains := services[..], anchors[..], chains[..];
    for i := 0 to services.Length
      invariant anchors[..] == sortedAnchors
      invariant chains[..] == sortedChains
      invariant services[..i] == NormaliseAll(sorted)[..i]
      invariant services[i..] == sorted[i..]
    {
      assert services[i] == services[i..][0] == sorted[i..][0] == sorted[i];
      var trust := CollectUnique(services[i].trustAnchorIds);
      var dependencies := CollectUnique(services[i].dependencyIds);
      ghost var before := services[..];
      services[i] := services[i].(trustAnchorIds := trust, dependencyIds := dependencies);
      assert services[..] == before[i := Normalise(sorted[i])];
      assert services[..i + 1] == before[..i] + [Normalise(sorted[i])];
      assert services[i + 1..] == before[i + 1..] == before[i..][1..] == sorted[i..][1..];
    }
    assert services[..] == services[..services.Length] == NormaliseAll(sorted);
    NormalisePermutes(sorted, old(services[..]));
    s := Snapshot(VERSION, config.(candidateChainIds := candidates), anchors[..], chains[..], services[..]);
  }

  lemma NormaliseWithout(a: seq<ServiceSnapshot>, k: nat)
    requires k < |a|
    ensures NormaliseAll(a[..k] + a[k + 1..]) == NormaliseAll(a)[..k] + NormaliseAll(a)[k + 1..]
  {
  }

  lemma NormaliseSplits(a: seq<ServiceSnapshot>, k: nat)
    requires k < |a|
    ensures multiset(NormaliseAll(a))
         == multiset(NormaliseAll(a[..k] + a[k + 1..])) + multiset{Normalise(a[k])}
  {
    NormaliseWithout(a, k);
    RemoveFromMultiset(NormaliseAll(a), k);
  }

  /** Permutations stay permutations when the first member is taken out of both. */
  lemma TakeFirst(a: seq<ServiceSnapshot>, b: seq<ServiceSnapshot>) returns (k: nat)
    requires a != [] && multiset(a) == multiset(b)
    ensures k < |b| && b[k] == a[0]
    ensures multiset(a[..0] + a[1..]) == multiset(b[..k] + b[k + 1..])
  {
    assert a[0] in multiset(b);
    k :| 0 <= k < |b| && b[k] == a[0];
    RemoveFromMultiset(a, 0);
    RemoveFromMultiset(b, k);
  }

  lemma {:induction false} NormalisePermutes(a: seq<ServiceSnapshot>, b: seq<ServiceSnapshot>)
    requires multiset(a) == multiset(b)
    ensures multiset(NormaliseAll(a)) == multiset(NormaliseAll(b))
    decreases |a|
  {
    if a == [] {
      assert |b| == |multiset(b)| == 0;
    } else {
      var k := TakeFirst(a, b);
      NormalisePermutes(a[..0] + a[1..], b[..k] + b[k + 1..]);
      NormaliseSplits(a, 0);
      NormaliseSplits(b, k);
    }
  }

  /** Equal in every field but the two lists, and those have the same positive members. */
  ghost predicate SameService(x: ServiceSnapshot, y: ServiceSnapshot) {
    && y == x.(trustAnchorIds := y.trustAnchorIds, dependencyIds := y.dependencyIds)
    && SamePositiveMembers(x.trustAnchorIds, y.trustAnchorIds)
    && SamePositiveMembers(x.dependencyIds, y.dependencyIds)
  }

  ghost predicate CoveredBy(a: seq<ServiceSnapshot>, b: seq<ServiceSnapshot>) {
    forall x :: x in a ==> exists y :: y in b && SameService(x, y)
  }

  ghost predicate SameConfig(c: ScenarioConfig, d: ScenarioConfig) {
    && d == c.(candidateChainIds := d.candidateChainIds)
    && SamePositiveMembers(c.candidateChainIds, d.candidateChainIds)
  }

  lemma SameServiceSameNormal(x: ServiceSnapshot, y: ServiceSnapshot)
    requires SameService(x, y)
    ensures Normalise(x) == Normalise(y)
  {
    SortedUniqueDetermined(x.trustAnchorIds, y.trustAnchorIds);
    SortedUniqueDetermined(x.dependencyIds, y.dependencyIds);
  }

  lemma CoveredByNormal(a: seq<ServiceSnapshot>, b: seq<ServiceSnapshot>, z: ServiceSnapshot)
    requires CoveredBy(a, b) && z in NormaliseAll(a)
    ensures z in NormaliseAll(b)
  {
    var i :| 0 <= i < |a| && NormaliseAll(a)[i] == z;
    assert a[i] in a;
    var y :| y in b && SameService(a[i], y);
    SameServiceSameNormal(a[i], y);
    var j :| 0 <= j < |b| && b[j] == y;
    assert NormaliseAll(b)[j] == z;
  }

  /** Freezing the same anchors, chains and services in any order gives one snapshot. */
  lemma FreezingIsCanonical(
      s: Snapshot, config: ScenarioConfig, anchors: seq<AnchorSnapshot>,
      chains: seq<ChainSnapshot>, services: seq<ServiceSnapshot>,
      s': Snapshot, config': ScenarioConfig, anchors': seq<AnchorSnapshot>,
      chains': seq<ChainSnapshot>, services': seq<ServiceSnapshot>)
    requires IsCanonicalOf(s, config, anchors, chains, services)
    requires IsCanonicalOf(s', config', anchors', chains', services')
    requires DistinctIds(anchors, chains, services) && DistinctIds(anchors', chains', services')
    requires SameConfig(config, config')
    requires SameMembers(anchors, anchors') && SameMembers(chains, chains')
    requires CoveredBy(services, services') && CoveredBy(services', services)
    ensures s == s'
  {
    SortedUniqueDetermined(config.candidateChainIds, config'.candidateChainIds);
    DistinctSortedIsStrict(s.anchors, anchors, AnchorKey);
    DistinctSortedIsStrict(s'.anchors, anchors', AnchorKey);
    StrictOrderIsUnique(s.anchors, s'.anchors, AnchorKey);
    DistinctSortedIsStrict(s.chains, chains, ChainKey);
    DistinctSortedIsStrict(s'.chains, chains', ChainKey);
    StrictOrderIsUnique(s.chains, s'.chains, ChainKey);
    DistinctSortedIsStrict(s.services, NormaliseAll(services), ServiceKey);
    DistinctSortedIsStrict(s'.services, NormaliseAll(services'), ServiceKey);
    forall z ensures z in s.services <==> z in s'.services {
      if z in s.services { CoveredByNormal(services, services', z); }
      if z in s'.services { CoveredByNormal(services', services, z); }
    }
    StrictOrderIsUnique(s.services, s'.services, ServiceKey);
  }

  /** Freezing a frozen snapshot again changes nothing. */
  lemma FreezingIsIdempotent(
      s: Snapshot, config: ScenarioConfig, anchors: seq<AnchorSnapshot>,
      chains: seq<ChainSnapshot>, services: seq<ServiceSnapshot>, again: Snapshot)
    requires IsCanonicalOf(s, config, anchors, chains, services)
    requires DistinctIds(anchors, chains, services)
    requires IsCanonicalOf(again, s.config, s.anchors, s.chains, s.services)
    ensures again == s
  {
    DistinctSortedIsStrict(s.anchors, anchors, AnchorKey);
    DistinctSortedIsStrict(s.chains, chains, ChainKey);
    DistinctSortedIsStrict(s.services, NormaliseAll(services), ServiceKey);
    forall x | x in services ensures exists y :: y in s.services && SameService(x, y) {
      var i :| 0 <= i < |services| && services[i] == x;
      assert NormaliseAll(services)[i] in s.services;
      assert SameService(x, NormaliseAll(services)[i]);
    }
    forall y | y in s.services ensures exists x :: x in services && SameService(y, x) {
      var i :| 0 <= i < |services| && NormaliseAll(services)[i] == y;
      assert SameService(y, services[i]);
    }
    FreezingIsCanonical(s, config, anchors, chains, services,
                        again, s.config, s.anchors, s.chains, s.services);
  }
}
