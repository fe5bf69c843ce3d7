/**
 What a simulation result says, stated over the frozen rows alone: which instants are judged, which
 services are reachable at them, and every field of the evidence. Tables, scans and the recursion of
 the simulator do not occur in these statements.
 */
module TrustReference {
  import opened Graphs
  import opened Ordering
  import opened Resolution
  import opened SimulationLaws
  import opened Simulator
  import opened Snapshots
  import opened TrustPaths

  // --- The report ---

  /** Exactly the active services that are unreachable at a judged instant are reported for it. */
  lemma ReportExact(s: Snapshot, id: Id, t: Instant)
    requires Accepts(s)
    ensures Affects(Simulation(s).affected, id, t) <==>
      Judged(s.config, t) && ActiveIn(s.services, id) && !ReachableAt(s, t, id)
    ensures Affects(Simulation(s).affected, id, s.config.simulationTime) <==>
      ActiveIn(s.services, id) && !ReachableAt(s, s.config.simulationTime, id)
  {
    AffectedExact(s, id, t);
    AffectedExact(s, id, s.config.simulationTime);
    JudgedExact(s.config, t);
    JudgedExact(s.config, s.config.simulationTime);
  }

  // --- The chains a service can use ---

  ghost predicate Live(config: ScenarioConfig, anchorId: Id, at: Instant) {
    || (anchorId == config.oldAnchorId && at <= config.overlapEnd)
    || (anchorId == config.newAnchorId && at >= config.overlapStart)
  }

  /** Chain c can stand in for the service's own chain at the instant. */
  ghost predicate Serves(s: Snapshot, x: ServiceSnapshot, own: ChainSnapshot, c: ChainSnapshot,
                         at: Instant)
  {
    && own in s.chains && own.id == x.chainId
    && c in s.chains && c.id > 0 && (c.id == x.chainId || c.id in s.config.candidateChainIds)
    && c.leafSubject == own.leafSubject
    && c.state != Deprecated && c.state != Revoked
    && c.validFrom <= at < c.validTo && c.validationValid
    && Live(s.config, c.anchorId, at) && c.anchorId in x.trustAnchorIds
  }

  ghost predicate Served(s: Snapshot, x: ServiceSnapshot, at: Instant) {
    exists own, c :: Serves(s, x, own, c, at)
  }

  ghost predicate DistinctRows(s: Snapshot) {
    DistinctBy(s.services, ServiceKey) && DistinctBy(s.chains, ChainKey)
  }

  lemma {:induction false} ChainsByIdExact(chains: seq<ChainSnapshot>)
    requires DistinctBy(chains, ChainKey)
    ensures forall c :: c in chains <==> c.id in ChainsById(chains) && ChainsById(chains)[c.id] == c
  {
    if chains != [] {
      var n := |chains| - 1;
      ChainsByIdExact(chains[..n]);
      ChainsByIdKeys(chains[..n]);
      assert forall c :: c in chains <==> c in chains[..n] || c == chains[n];
      assert forall i :: 0 <= i < n ==> ChainKey(chains[i]) != ChainKey(chains[n]);
    }
  }

  /** The chain of an id passes the simulator's checks exactly when it serves the service. */
  lemma UsableIsServing(s: Snapshot, x: ServiceSnapshot, at: Instant, id: Id)
    requires DistinctRows(s) && s.config.overlapStart <= s.config.overlapEnd
    requires x.chainId in ChainsById(s.chains)
    ensures var chains := ChainsById(s.chains);
      (id in SortedUnique([x.chainId] + s.config.candidateChainIds)
       && UsableId(x, chains[x.chainId].leafSubject, at, ActiveAnchors(s.config, at), chains, id))
      <==> id in chains && Serves(s, x, chains[x.chainId], chains[id], at) && chains[id].id == id
  {
    ChainsByIdKeys(s.chains);
    ChainsByIdExact(s.chains);
  }

  ghost predicate SelectsLeast(s: Snapshot, x: ServiceSnapshot, at: Instant, e: Evidence) {
    exists own, c :: Serves(s, x, own, c, at)
      && e.selectedChainId == c.id && e.selectedAnchorId == c.anchorId
      && forall d :: Serves(s, x, own, d, at) ==> c.id <= d.id
  }

  ghost predicate OwnChainStored(s: Snapshot, x: ServiceSnapshot) {
    exists c :: c in s.chains && c.id == x.chainId
  }

  /** Direct evidence, field by field. */
  ghost predicate Describes(s: Snapshot, x: ServiceSnapshot, at: Instant, e: Evidence) {
    && e.serviceId == x.id && e.serviceCode == x.code
    && (e.reachable <==> Served(s, x, at))
    && (e.reachable <==> e.reason == Reachable)
    && (e.reachable ==> SelectsLeast(s, x, at, e))
    && (!e.reachable ==> e.selectedChainId == 0 && e.selectedAnchorId == 0)
    && (e.reason == ChainMissing <==> !OwnChainStored(s, x))
    && (e.reason.Reachable? || e.reason.ChainMissing? || e.reason.NoUsableChain?
        || (e.reason.NoMatchingChain? && x.chainId == 0))
  }

  lemma DirectDescribed(s: Snapshot, x: ServiceSnapshot, at: Instant)
    requires DistinctRows(s) && s.config.overlapStart <= s.config.overlapEnd
    ensures Describes(s, x, at, Direct(x, at, ActiveAnchors(s.config, at), s.config.candidateChainIds,
                                       ChainsById(s.chains)))
  {
    var active, chains := ActiveAnchors(s.config, at), ChainsById(s.chains);
    var e := Direct(x, at, active, s.config.candidateChainIds, chains);
    ChainsByIdKeys(s.chains);
    ChainsByIdExact(s.chains);
    if x.chainId in chains {
      DirectExact(x, at, active, s.config.candidateChainIds, chains);
      if e.reachable {
        LeastServes(s, x, at, e);
      } else {
        if o, c :| Serves(s, x, o, c, at) {
          ServingIsUsable(s, x, o, c, at);
          assert false;
        }
      }
    }
  }

  lemma ServingIsUsable(s: Snapshot, x: ServiceSnapshot, own: ChainSnapshot, c: ChainSnapshot, at: Instant)
    requires DistinctRows(s) && s.config.overlapStart <= s.config.overlapEnd
    requires Serves(s, x, own, c, at)
    ensures var chains := ChainsById(s.chains);
      && x.chainId in chains && c.id in SortedUnique([x.chainId] + s.config.candidateChainIds)
      && UsableId(x, chains[x.chainId].leafSubject, at, ActiveAnchors(s.config, at), chains, c.id)
  {
    ChainsByIdExact(s.chains);
    UsableIsServing(s, x, at, c.id);
  }

  lemma LeastServes(s: Snapshot, x: ServiceSnapshot, at: Instant, e: Evidence)
    requires DistinctRows(s) && s.config.overlapStart <= s.config.overlapEnd
    requires x.chainId in ChainsById(s.chains)
    requires var chains := ChainsById(s.chains);
      LeastUsable(e, x, chains[x.chainId].leafSubject, at, ActiveAnchors(s.config, at), chains,
                  SortedUnique([x.chainId] + s.config.candidateChainIds))
    ensures SelectsLeast(s, x, at, e)
  {
    var chains := ChainsById(s.chains);
    var own, c := chains[x.chainId], chains[e.selectedChainId];
    ChainsByIdKeys(s.chains);
    ChainsByIdExact(s.chains);
    UsableIsServing(s, x, at, e.selectedChainId);
    forall d | Serves(s, x, own, d, at) ensures c.id <= d.id {
      UsableIsServing(s, x, at, d.id);
    }
    assert Serves(s, x, own, c, at);
  }

  // --- The dependency graph ---

  ghost predicate DependsOn(s: Snapshot, a: Id, b: Id) {
    exists x :: x in s.services && x.id == a && b in x.dependencyIds
  }

  ghost predicate Walk(s: Snapshot, p: seq<Id>) {
    p != [] && forall i :: 0 <= i < |p| - 1 ==> DependsOn(s, p[i], p[i + 1])
  }

  lemma EdgeExact(s: Snapshot, a: Id, b: Id)
    requires DistinctRows(s)
    ensures DependsOn(s, a, b) <==> b in Next(GraphOf(s), a)
  {
    ServicesByIdExact(s.services);
    var table := ServicesById(s.services);
    if a in table {
      var x :| x in s.services && x.id == a;
      assert table[x.id] == x;
    }
  }

  lemma WalkExact(s: Snapshot, p: seq<Id>)
    requires DistinctRows(s)
    ensures Walk(s, p) <==> IsPath(GraphOf(s), p)
  {
    forall i | 0 <= i < |p| - 1 ensures DependsOn(s, p[i], p[i + 1]) <==> p[i + 1] in Next(GraphOf(s), p[i]) {
      EdgeExact(s, p[i], p[i + 1]);
    }
  }

  /** The service is there, active, and has a usable chain. */
  ghost predicate Works(s: Snapshot, id: Id, at: Instant) {
    exists x :: x in s.services && x.id == id && x.state == Active && Served(s, x, at)
  }

  lemma WorksExact(s: Snapshot, id: Id, at: Instant)
    requires DistinctRows(s) && s.config.overlapStart <= s.config.overlapEnd
    ensures Works(s, id, at) <==> Good(DirectAt(s, at), id)
  {
    if Good(DirectAt(s, at), id) {
      var x := GoodIsActive(s, at, id);
      DirectAtExact(s, at, x);
      DirectDescribed(s, x, at);
    }
    if Works(s, id, at) {
      var x :| x in s.services && x.id == id && x.state == Active && Served(s, x, at);
      DirectAtExact(s, at, x);
      DirectDescribed(s, x, at);
    }
  }

  /**
   A service of an accepted snapshot is reachable exactly when every service it depends on, directly
   or indirectly, itself included, is active and has a usable chain.
   */
  lemma ReachableExact(s: Snapshot, at: Instant, id: Id)
    requires Accepts(s) && DistinctRows(s)
    ensures ReachableAt(s, at, id) <==>
      forall p :: Walk(s, p) && p[0] == id ==> Works(s, p[|p| - 1], at)
  {
    ResolveExact(DirectAt(s, at), GraphOf(s), id);
    forall p ensures Walk(s, p) <==> IsPath(GraphOf(s), p) {
      WalkExact(s, p);
    }
    forall y ensures Works(s, y, at) <==> Good(DirectAt(s, at), y) {
      WorksExact(s, y, at);
    }
  }

  // --- The evidence ---

  /** What is told about a service at an instant: its verdict, its selection and its reason. */
  function ItemAt(s: Snapshot, at: Instant, id: Id): Evidence {
    Resolve(DirectAt(s, at), GraphOf(s), {}, id, []).0
  }

  /** The k-th dependency is the first unreachable one, and the reason carries its code and reason. */
  ghost predicate BlamedOn(s: Snapshot, x: ServiceSnapshot, at: Instant, item: Evidence, k: nat) {
    && k < |x.dependencyIds| && !ReachableAt(s, at, x.dependencyIds[k])
    && (forall j :: 0 <= j < k ==> ReachableAt(s, at, x.dependencyIds[j]))
    && var y := x.dependencyIds[k];
    && (!ActiveIn(s.services, y) ==> item.reason == Upstream("", AbsentOrInactive))
    && (forall z :: z in s.services && z.id == y && z.state == Active ==>
          item.reason == Upstream(z.code, ItemAt(s, at, y).reason))
  }

  /**
   The item of an active service, field by field: its own evidence, and when only a dependency fails,
   the same chain and anchor with the blame on that dependency.
   */
  ghost predicate Reports(s: Snapshot, x: ServiceSnapshot, at: Instant, item: Evidence) {
    && (item.reachable <==> ReachableAt(s, at, x.id))
    && if item.reachable || !Served(s, x, at) then Describes(s, x, at, item)
       else
         && item.serviceId == x.id && item.serviceCode == x.code
         && SelectsLeast(s, x, at, item)
         && exists k :: BlamedOn(s, x, at, item, k)
  }

  lemma DependencyCode(s: Snapshot, at: Instant, y: Id)
    requires DistinctRows(s) && s.config.overlapStart <= s.config.overlapEnd
    ensures !ActiveIn(s.services, y) ==> ItemAt(s, at, y) == Evidence(y, "", false, 0, 0, AbsentOrInactive)
    ensures forall z :: z in s.services && z.id == y && z.state == Active ==>
      ItemAt(s, at, y).serviceCode == z.code
  {
    ResolvedItem(DirectAt(s, at), GraphOf(s), {}, y);
    DirectOverKeys(s.services, at, ActiveAnchors(s.config, at), s.config.candidateChainIds,
                   ChainsById(s.chains), y);
    forall z | z in s.services && z.id == y && z.state == Active
      ensures ItemAt(s, at, y).serviceCode == z.code
    {
      DirectAtExact(s, at, z);
      DirectDescribed(s, z, at);
    }
  }

  /** The item of every active service of an accepted snapshot, at any instant. */
  lemma ItemExact(s: Snapshot, at: Instant, x: ServiceSnapshot)
    requires Accepts(s) && DistinctRows(s) && x in s.services && x.state == Active
    ensures Reports(s, x, at, ItemAt(s, at, x.id))
  {
    var direct, g := DirectAt(s, at), GraphOf(s);
    var item := ItemAt(s, at, x.id);
    DirectAtExact(s, at, x);
    DirectDescribed(s, x, at);
    ResolvedItem(direct, g, {}, x.id);
    ServicesByIdExact(s.services);
    assert Next(g, x.id) == x.dependencyIds;
    if Good(direct, x.id) && !item.reachable {
      var k := BlameIsCompositional(direct, g, x.id);
      DependencyCode(s, at, x.dependencyIds[k]);
      assert BlamedOn(s, x, at, item, k);
    }
  }

  ghost predicate Resolves(services: seq<ServiceSnapshot>, direct: DirectTable, g: Graph, e: Evidence) {
    exists x :: x in services && x.state == Active && e == Resolve(direct, g, {}, x.id, []).0
  }

  lemma OneMoreResolves(services: seq<ServiceSnapshot>, direct: DirectTable, g: Graph, e: Evidence)
    requires services != []
    ensures var n := |services| - 1;
      Resolves(services, direct, g, e) <==>
        Resolves(services[..n], direct, g, e)
        || (services[n].state == Active && e == Resolve(direct, g, {}, services[n].id, []).0)
  {
    var n := |services| - 1;
    assert forall x :: x in services <==> x in services[..n] || x == services[n];
  }

  lemma {:induction false} ItemsAreResolved(services: seq<ServiceSnapshot>, at: Instant,
      direct: DirectTable, table: map<Id, ServiceSnapshot>, e: Evidence)
    ensures e in RoundOver(services, at, direct, table).items <==>
      Resolves(services, direct, Edges(table), e)
  {
    if services != [] {
      var n := |services| - 1;
      ItemsAreResolved(services[..n], at, direct, table, e);
      OneMoreResolves(services, direct, Edges(table), e);
    }
  }

  lemma {:induction false} ActiveIdsExact(services: seq<ServiceSnapshot>)
    requires DistinctBy(services, ServiceKey)
    ensures forall id :: id in ActiveIds(services) <==> ActiveIn(services, id)
    ensures forall i, j :: 0 <= i < j < |ActiveIds(services)| ==>
      ActiveIds(services)[i] != ActiveIds(services)[j]
  {
    if services != [] {
      var n := |services| - 1;
      ActiveIdsExact(services[..n]);
      assert forall x :: x in services <==> x in services[..n] || x == services[n];
      assert forall i :: 0 <= i < n ==> ServiceKey(services[i]) != ServiceKey(services[n]);
      assert !ActiveIn(services[..n], services[n].id);
      var rest := ActiveIds(services[..n]);
      assert forall i :: 0 <= i < |rest| ==> rest[i] in rest;
    }
  }

  ghost predicate ReportsOne(s: Snapshot, at: Instant, item: Evidence) {
    exists x :: x in s.services && x.state == Active && Reports(s, x, at, item)
  }

  ghost predicate ReportedIn(s: Snapshot, at: Instant, items: seq<Evidence>, x: ServiceSnapshot) {
    exists item :: item in items && item.serviceId == x.id && Reports(s, x, at, item)
  }

  /** The items of one instant: one for each active service, reporting it. */
  ghost predicate ReportsAll(s: Snapshot, at: Instant, items: seq<Evidence>) {
    && (forall item :: item in items ==> ReportsOne(s, at, item))
    && (forall x :: x in s.services && x.state == Active ==> ReportedIn(s, at, items, x))
    && (forall i, j :: 0 <= i < j < |items| ==> items[i].serviceId != items[j].serviceId)
  }

  lemma RoundReportsAll(s: Snapshot, at: Instant)
    requires Accepts(s) && DistinctRows(s)
    ensures ReportsAll(s, at, RoundAt(s, at).items)
  {
    var direct, g, items := DirectAt(s, at), GraphOf(s), RoundAt(s, at).items;
    RoundAccounts(s, at);
    ActiveIdsExact(s.services);
    forall item | item in items ensures ReportsOne(s, at, item) {
      ItemsAreResolved(s.services, at, direct, ServicesById(s.services), item);
      var x :| x in s.services && x.state == Active && item == Resolve(direct, g, {}, x.id, []).0;
      ItemExact(s, at, x);
    }
    forall x | x in s.services && x.state == Active ensures ReportedIn(s, at, items, x) {
      var item := ItemAt(s, at, x.id);
      ItemExact(s, at, x);
      assert Resolves(s.services, direct, g, item);
      ItemsAreResolved(s.services, at, direct, ServicesById(s.services), item);
    }
  }

  lemma LiveAnchorsListed(config: ScenarioConfig, at: Instant)
    requires AnchorsDistinct(config) && config.overlapStart <= config.overlapEnd
    ensures Increasing(ActiveList(config, at))
    ensures forall a :: a in ActiveList(config, at) <==> Live(config, a, at)
  {
  }

  /** The entries are those of the judged instants, in ascending order. */
  ghost predicate EntriesAreJudged(config: ScenarioConfig, evidence: seq<TimepointEvidence>) {
    && (forall i, j :: 0 <= i < j < |evidence| ==> evidence[i].at < evidence[j].at)
    && (forall t :: Judged(config, t) <==> exists k :: 0 <= k < |evidence| && evidence[k].at == t)
  }

  lemma EntriesExact(s: Snapshot)
    requires s.config.overlapStart < s.config.overlapEnd
    ensures EntriesAreJudged(s.config, Simulation(s).evidence)
  {
    var evidence, points := Simulation(s).evidence, CriticalTimes(s.config);
    forall t ensures Judged(s.config, t) <==> exists k :: 0 <= k < |evidence| && evidence[k].at == t {
      JudgedExact(s.config, t);
      if t in points {
        var k :| 0 <= k < |points| && points[k] == t;
        assert evidence[k].at == t;
      }
    }
  }

  /** The live anchors, in ascending order, and exactly one item for each active service. */
  ghost predicate EntryIs(s: Snapshot, e: TimepointEvidence) {
    && Increasing(e.activeAnchorIds)
    && (forall a :: a in e.activeAnchorIds <==> Live(s.config, a, e.at))
    && ReportsAll(s, e.at, e.services)
  }

  /**
   The evidence of an accepted snapshot: the judged instants in ascending order, at each of them the
   live anchors in ascending order, and exactly one item for each active service, which reports it.
   */
  lemma EvidenceExact(s: Snapshot)
    requires Accepts(s) && DistinctRows(s)
    ensures var evidence := Simulation(s).evidence;
      && EntriesAreJudged(s.config, evidence)
      && forall k :: 0 <= k < |evidence| ==> EntryIs(s, evidence[k])
  {
    EntriesExact(s);
    forall k | 0 <= k < |Simulation(s).evidence| ensures EntryIs(s, Simulation(s).evidence[k]) {
      var at := CriticalTimes(s.config)[k];
      LiveAnchorsListed(s.config, at);
      RoundReportsAll(s, at);
    }
  }
}
