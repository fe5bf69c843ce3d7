/**
 What the sampled instants say about the time between them. A result without failures speaks of the
 sampled instants only: a gap between two chains can fall between two samples. Together with the
 instants at which chains stop being usable, however, samples are conclusive.
 */
module CoverageLaws {
  import opened Graphs
  import opened Ordering
  import opened Resolution
  import opened SimulationLaws
  import opened Simulator
  import opened Snapshots
  import opened TrustPaths

  /** A chain's window closes at e, or e is the first instant after the overlap. */
  ghost predicate EndsUse(s: Snapshot, e: Instant) {
    e == s.config.overlapEnd + 1 || exists c :: c in s.chains && c.validTo == e
  }

  lemma {:induction false} TabulatedChain(chains: seq<ChainSnapshot>, id: Id)
    requires id in ChainsById(chains)
    ensures ChainsById(chains)[id] in chains
  {
    var n := |chains| - 1;
    if chains[n].id != id {
      TabulatedChain(chains[..n], id);
    }
  }

  /** A usable chain stays usable until an instant that ends use. */
  lemma GoodCarriesOn(s: Snapshot, id: Id, t: Instant)
    requires DistinctBy(s.services, ServiceKey) && s.config.overlapStart <= s.config.overlapEnd
    requires Good(DirectAt(s, t - 1), id) && !EndsUse(s, t)
    ensures Good(DirectAt(s, t), id)
  {
    var x := GoodIsActive(s, t - 1, id);
    GoodExact(s, t - 1, x);
    var chains := ChainsById(s.chains);
    var leaf := chains[x.chainId].leafSubject;
    var c :| c in SortedUnique([x.chainId] + s.config.candidateChainIds)
      && UsableId(x, leaf, t - 1, ActiveAnchors(s.config, t - 1), chains, c);
    TabulatedChain(s.chains, c);
    assert UsableId(x, leaf, t, ActiveAnchors(s.config, t), chains, c);
    GoodExact(s, t, x);
  }

  lemma ReachableCarriesOn(s: Snapshot, root: Id, t: Instant)
    requires DistinctBy(s.services, ServiceKey) && s.config.overlapStart <= s.config.overlapEnd
    requires ReachableAt(s, t - 1, root) && !EndsUse(s, t)
    ensures ReachableAt(s, t, root)
  {
    var g := GraphOf(s);
    ResolveExact(DirectAt(s, t - 1), g, root);
    ResolveExact(DirectAt(s, t), g, root);
    forall w | IsPath(g, w) && w[0] == root ensures Good(DirectAt(s, t), w[|w| - 1]) {
      GoodCarriesOn(s, w[|w| - 1], t);
    }
  }

  lemma {:induction false} ReachableUpTo(s: Snapshot, root: Id, p: Instant, t: Instant)
    requires DistinctBy(s.services, ServiceKey) && s.config.overlapStart <= s.config.overlapEnd
    requires p <= t && ReachableAt(s, p, root)
    requires forall e :: p < e <= t && EndsUse(s, e) ==> ReachableAt(s, e, root)
    ensures ReachableAt(s, t, root)
    decreases t - p
  {
    if p < t && !EndsUse(s, t) {
      ReachableUpTo(s, root, p, t - 1);
      ReachableCarriesOn(s, root, t);
    }
  }

  /**
   A service is reachable throughout an interval exactly when it is at the first instant and at
   each later one at which a chain window or the overlap has just ended.
   */
  lemma IntervalExact(s: Snapshot, root: Id, p: Instant, q: Instant)
    requires DistinctBy(s.services, ServiceKey) && s.config.overlapStart <= s.config.overlapEnd
    requires p <= q
    ensures (forall t :: p <= t <= q ==> ReachableAt(s, t, root)) <==>
      ReachableAt(s, p, root)
      && (forall e :: p < e <= q && EndsUse(s, e) ==> ReachableAt(s, e, root))
  {
    if ReachableAt(s, p, root)
       && (forall e :: p < e <= q && EndsUse(s, e) ==> ReachableAt(s, e, root)) {
      forall t | p <= t <= q ensures ReachableAt(s, t, root) {
        ReachableUpTo(s, root, p, t);
      }
    }
  }

  /** Before, during and after the overlap: the span the explanation speaks of. */
  ghost predicate InSpan(s: Snapshot, t: Instant) {
    s.config.overlapStart - MINUTE <= t <= s.config.overlapEnd + MINUTE
  }

  lemma AllReachableExactFor(s: Snapshot, root: Id)
    requires Accepts(s) && DistinctBy(s.services, ServiceKey)
    requires Simulation(s).explanation == AllReachable && ActiveIn(s.services, root)
    ensures (forall t :: InSpan(s, t) ==> ReachableAt(s, t, root)) <==>
      (forall e :: InSpan(s, e) && EndsUse(s, e) ==> ReachableAt(s, e, root))
  {
    var p, q := s.config.overlapStart - MINUTE, s.config.overlapEnd + MINUTE;
    EveryRegimeIsSampled(s.config);
    ExplanationExact(s);
    assert !FailsAt(s, root, p);
    IntervalExact(s, root, p, q);
  }

  /**
   When the simulation explains that all paths remain reachable before, during and after the overlap,
   this is so exactly when every active service is reachable also at the instants in that span at
   which a chain window or the overlap has just ended.
   */
  lemma AllReachableExact(s: Snapshot)
    requires Accepts(s) && DistinctBy(s.services, ServiceKey)
    requires Simulation(s).explanation == AllReachable
    ensures (forall root, t :: ActiveIn(s.services, root) && InSpan(s, t) ==> ReachableAt(s, t, root)) <==>
      (forall root, e :: ActiveIn(s.services, root) && InSpan(s, e) && EndsUse(s, e) ==>
         ReachableAt(s, e, root))
  {
    if forall root, e :: ActiveIn(s.services, root) && InSpan(s, e) && EndsUse(s, e) ==>
         ReachableAt(s, e, root) {
      forall root, t | ActiveIn(s.services, root) && InSpan(s, t) ensures ReachableAt(s, t, root) {
        AllReachableExactFor(s, root);
      }
    }
  }

  // --- A gap between two samples ---

  const OLD_CHAIN := ChainSnapshot(10, "old-chain", 1, "CN=api", 0, 120 * MINUTE, Validated, true)
  const NEW_CHAIN := ChainSnapshot(11, "new-chain", 2, "CN=api", 140 * MINUTE, 400 * MINUTE, Validated, true)
  const GATEWAY := ServiceSnapshot(101, "gateway", 10, [1, 2], [], "critical", Active)

  /** An overlap from minute 100 to 200, with no valid chain from minute 120 to 140. */
  const GAP := Snapshot(
    VERSION,
    ScenarioConfig("gap", 1, 2, 100 * MINUTE, 200 * MINUTE, [10, 11], 150 * MINUTE),
    [AnchorSnapshot(1, "old", "valid", 0, 400 * MINUTE, false),
     AnchorSnapshot(2, "new", "valid", 0, 400 * MINUTE, false)],
    [OLD_CHAIN, NEW_CHAIN],
    [GATEWAY])

  lemma GapTables()
    ensures DistinctBy(GAP.services, ServiceKey)
    ensures ChainsById(GAP.chains) == map[10 := OLD_CHAIN, 11 := NEW_CHAIN]
    ensures GraphOf(GAP) == map[101 := []]
    ensures Acyclic(GraphOf(GAP))
  {
    var chains := [OLD_CHAIN, NEW_CHAIN];
    assert chains[..1] == [OLD_CHAIN] && chains[..1][..0] == [];
    assert ChainsById(chains[..1]) == map[10 := OLD_CHAIN];
    assert ChainsById(chains) == map[10 := OLD_CHAIN, 11 := NEW_CHAIN];
    assert GAP.services[..0] == [];
    var g := GraphOf(GAP);
    assert ServicesById(GAP.services) == map[101 := GATEWAY];
    assert g == map[101 := []];
    assert SuccessorsFirst(g, [101]) by {
      assert Next(g, 101) == [];
    }
    OrderedGraphIsAcyclic(g, [101]);
  }

  lemma GapIsAccepted()
    ensures Accepts(GAP)
  {
    GapTables();
    assert GAP.anchors[0] in GAP.anchors && GAP.anchors[1] in GAP.anchors;
    assert OLD_CHAIN in GAP.chains && NEW_CHAIN in GAP.chains;
  }

  ghost predicate InSomeWindow(t: Instant) {
    0 <= t < 120 * MINUTE || 140 * MINUTE <= t < 400 * MINUTE
  }

  lemma GapChains(t: Instant)
    ensures HasUsableChain(GAP, GATEWAY, t) <==> InSomeWindow(t)
  {
    GapTables();
    var ids := [GATEWAY.chainId] + GAP.config.candidateChainIds;
    assert ids == [10, 10, 11];
    assert forall c :: c in SortedUnique(ids) <==> c == 10 || c == 11;
    var active, chains := ActiveAnchors(GAP.config, t), ChainsById(GAP.chains);
    assert UsableId(GATEWAY, "CN=api", t, active, chains, 10) <==> 0 <= t < 120 * MINUTE;
    assert UsableId(GATEWAY, "CN=api", t, active, chains, 11) <==> 140 * MINUTE <= t < 400 * MINUTE;
  }

  lemma FirstStep(g: Graph, w: seq<Id>)
    requires IsPath(g, w) && |w| > 1
    ensures w[1] in Next(g, w[0])
  {
    assert w[0 + 1] in Next(g, w[0]);
  }

  lemma OnlyTrivialPath(g: Graph, x: Id, w: seq<Id>)
    requires Next(g, x) == [] && IsPath(g, w) && w[0] == x
    ensures w == [x]
  {
    if |w| > 1 {
      FirstStep(g, w);
    }
  }

  /** The gateway is reachable exactly while one of its two chains is usable. */
  lemma GapReachability(t: Instant)
    ensures ReachableAt(GAP, t, 101) <==> InSomeWindow(t)
  {
    GapTables();
    var g := GraphOf(GAP);
    ResolveExact(DirectAt(GAP, t), g, 101);
    assert GATEWAY in GAP.services;
    GoodExact(GAP, t, GATEWAY);
    GapChains(t);
    assert IsPath(g, [101]);
    forall w | IsPath(g, w) && w[0] == 101 ensures w == [101] {
      OnlyTrivialPath(g, 101, w);
    }
  }

  lemma GapSamples(t: Instant)
    requires t in CriticalTimes(GAP.config)
    ensures InSomeWindow(t)
  {
  }

  lemma OnlyGateway(id: Id)
    requires ActiveIn(GAP.services, id)
    ensures id == 101
  {
  }

  /** The simulation reports that all paths remain reachable, although one fails within the overlap. */
  lemma AllReachableCanMissAGap()
    ensures Accepts(GAP) && Simulation(GAP).explanation == AllReachable
    ensures !ReachableAt(GAP, 130 * MINUTE, 101)
    ensures GAP.config.overlapStart < 130 * MINUTE < GAP.config.overlapEnd
  {
    GapIsAccepted();
    GapReachability(130 * MINUTE);
    forall id, t ensures !FailsAt(GAP, id, t) {
      if FailsAt(GAP, id, t) {
        OnlyGateway(id);
        GapSamples(t);
        GapReachability(t);
      }
    }
    ExplanationExact(GAP);
  }
}
