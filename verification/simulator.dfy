/** Validation of a frozen snapshot and the simulation of a rollover over its critical instants. */
module Simulator {
  import opened CycleCheck
  import opened Graphs
  import opened Ordering
  import opened Outcomes
  import opened Resolution
  import opened Snapshots
  import opened TrustPaths

  // --- Tables by identifier: a later row replaces an earlier one of the same id ---

  function ServicesById(services: seq<ServiceSnapshot>): map<Id, ServiceSnapshot> {
    if services == [] then map[]
    else
      var n := |services| - 1;
      ServicesById(services[..n])[services[n].id := services[n]]
  }

  function ChainsById(chains: seq<ChainSnapshot>): ChainTable {
    if chains == [] then map[]
    else
      var n := |chains| - 1;
      ChainsById(chains[..n])[chains[n].id := chains[n]]
  }

  function GraphOf(s: Snapshot): Graph {
    Edges(ServicesById(s.services))
  }

  // --- Validation ---

  datatype ValidationError =
    | AnchorsNotDistinct
    | EmptyOverlap
    | SimulationTimeMissing
    | AnchorsMissing
    | CandidateMissing(id: Id)
    | Cyclic(id: Id)

  ghost predicate HasAnchor(s: Snapshot, id: Id) {
    exists a :: a in s.anchors && a.id == id
  }

  ghost predicate HasChain(s: Snapshot, id: Id) {
    exists c :: c in s.chains && c.id == id
  }

  predicate AnchorsDistinct(config: ScenarioConfig) {
    config.oldAnchorId != 0 && config.newAnchorId != 0 && config.oldAnchorId != config.newAnchorId
  }

  ghost predicate AnchorsPresent(s: Snapshot) {
    HasAnchor(s, s.config.oldAnchorId) && HasAnchor(s, s.config.newAnchorId)
  }

  /** What an accepted configuration satisfies, the dependency graph aside. */
  ghost predicate WellConfigured(s: Snapshot) {
    && AnchorsDistinct(s.config)
    && s.config.overlapStart < s.config.overlapEnd
    && s.config.simulationTime != 0
    && AnchorsPresent(s)
    && (forall id :: id in s.config.candidateChainIds ==> HasChain(s, id))
  }

  ghost predicate Accepts(s: Snapshot) {
    WellConfigured(s) && Acyclic(GraphOf(s))
  }

  /** The error names the first check that fails. */
  ghost predicate Blames(s: Snapshot, e: ValidationError) {
    match e
    case AnchorsNotDistinct => !AnchorsDistinct(s.config)
    case EmptyOverlap => AnchorsDistinct(s.config) && s.config.overlapStart >= s.config.overlapEnd
    case SimulationTimeMissing =>
      AnchorsDistinct(s.config) && s.config.overlapStart < s.config.overlapEnd
      && s.config.simulationTime == 0
    case AnchorsMissing =>
      AnchorsDistinct(s.config) && s.config.overlapStart < s.config.overlapEnd
      && s.config.simulationTime != 0 && !AnchorsPresent(s)
    case CandidateMissing(id) =>
      AnchorsDistinct(s.config) && s.config.overlapStart < s.config.overlapEnd
      && s.config.simulationTime != 0 && AnchorsPresent(s)
      && !HasChain(s, id)
      && exists k :: 0 <= k < |s.config.candidateChainIds| && s.config.candidateChainIds[k] == id
                  && forall j :: 0 <= j < k ==> HasChain(s, s.config.candidateChainIds[j])
    case Cyclic(id) => WellConfigured(s) && OnCycle(GraphOf(s), id)
  }

  method DetectCycle(services: seq<ServiceSnapshot>) returns (fault: Option<Fault>)
    ensures fault.None? <==> Acyclic(Edges(ServicesById(services)))
    ensures fault.Some? ==>
      fault.value.CycleAt? && OnCycle(Edges(ServicesById(services)), fault.value.id)
  {
    var edges: Graph := map[];
    for k := 0 to |services|
      invariant edges == Edges(ServicesById(services[..k]))
    {
      assert services[..k + 1][..k] == services[..k];
      edges := edges[services[k].id := services[k].dependencyIds];
    }
    assert services[..|services|] == services;
    fault := CheckGraph(edges, false);
  }

  method ValidateSnapshot(s: Snapshot) returns (e: Option<ValidationError>)
    ensures e.None? <==> Accepts(s)
    ensures e.Some? ==> Blames(s, e.value)
  {
    if s.config.oldAnchorId == 0 || s.config.newAnchorId == 0
       || s.config.oldAnchorId == s.config.newAnchorId {
      return Some(AnchorsNotDistinct);
    }
    if !(s.config.overlapStart < s.config.overlapEnd) {
      return Some(EmptyOverlap);
    }
    if s.config.simulationTime == 0 {
      return Some(SimulationTimeMissing);
    }
    var anchorSeen: set<Id> := {};
    for k := 0 to |s.anchors|
      invariant forall id :: id in anchorSeen <==> exists j :: 0 <= j < k && s.anchors[j].id == id
    {
      anchorSeen := anchorSeen + {s.anchors[k].id};
    }
    assert forall id :: id in anchorSeen <==> HasAnchor(s, id);
    if s.config.oldAnchorId !in anchorSeen || s.config.newAnchorId !in anchorSeen {
      return Some(AnchorsMissing);
    }
    var chainSeen: set<Id> := {};
    for k := 0 to |s.chains|
      invariant forall id :: id in chainSeen <==> exists j :: 0 <= j < k && s.chains[j].id == id
    {
      chainSeen := chainSeen + {s.chains[k].id};
    }
    assert forall id :: id in chainSeen <==> HasChain(s, id);
    for k := 0 to |s.config.candidateChainIds|
      invariant forall j :: 0 <= j < k ==> HasChain(s, s.config.candidateChainIds[j])
    {
      if s.config.candidateChainIds[k] !in chainSeen {
        return Some(CandidateMissing(s.config.candidateChainIds[k]));
      }
    }
    var fault := DetectCycle(s.services);
    if fault.Some? {
      return Some(Cyclic(fault.value.id));
    }
    return None;
  }

  // --- The result of a simulation ---

  datatype AffectedService = AffectedService(
    serviceId: Id, serviceCode: string, criticality: string, at: Instant, reason: Reason)

  datatype BrokenPath = BrokenPath(at: Instant, serviceCodes: seq<string>, reason: Reason)

  datatype TimepointEvidence = TimepointEvidence(
    at: Instant, activeAnchorIds: seq<Id>, services: seq<Evidence>)

  datatype Explanation =
    | AwaitingSimulation
    | AllReachable
    | Failures(affected: nat, broken: nat, early: bool, late: bool)

  datatype SimulationResult = SimulationResult(
    affected: seq<AffectedService>, broken: seq<BrokenPath>,
    evidence: seq<TimepointEvidence>, explanation: Explanation)

  // --- One instant ---

  datatype Round = Round(
    items: seq<Evidence>, affected: seq<AffectedService>, broken: seq<BrokenPath>)

  function DirectOver(services: seq<ServiceSnapshot>, at: Instant, active: set<Id>,
                      candidates: seq<Id>, chains: ChainTable): DirectTable
  {
    if services == [] then map[]
    else
      var n := |services| - 1;
      var rest := DirectOver(services[..n], at, active, candidates, chains);
      if services[n].state != Active then rest
      else rest[services[n].id := Direct(services[n], at, active, candidates, chains)]
  }

  function DirectAt(s: Snapshot, at: Instant): DirectTable {
    DirectOver(s.services, at, ActiveAnchors(s.config, at), s.config.candidateChainIds,
               ChainsById(s.chains))
  }

  function PathCodes(table: map<Id, ServiceSnapshot>, path: seq<Id>): seq<string> {
    if path == [] then []
    else
      var n := |path| - 1;
      PathCodes(table, path[..n]) + if path[n] in table then [table[path[n]].code] else []
  }

  function AddService(round: Round, service: ServiceSnapshot, at: Instant,
                      table: map<Id, ServiceSnapshot>, item: Evidence, path: seq<Id>): Round
  {
    if item.reachable then round.(items := round.items + [item])
    else Round(
      round.items + [item],
      round.affected
        + [AffectedService(service.id, service.code, service.criticality, at, item.reason)],
      round.broken + [BrokenPath(at, PathCodes(table, path), item.reason)])
  }

  function RoundOver(services: seq<ServiceSnapshot>, at: Instant, direct: DirectTable,
                     table: map<Id, ServiceSnapshot>): Round
  {
    if services == [] then Round([], [], [])
    else
      var n := |services| - 1;
      var rest := RoundOver(services[..n], at, direct, table);
      if services[n].state != Active then rest
      else
        var (item, path) := Resolve(direct, Edges(table), {}, services[n].id, []);
        AddService(rest, services[n], at, table, item, path)
  }

  function RoundAt(s: Snapshot, at: Instant): Round {
    RoundOver(s.services, at, DirectAt(s, at), ServicesById(s.services))
  }

  function ActiveList(config: ScenarioConfig, at: Instant): seq<Id> {
    SortedUnique(
      if at < config.overlapStart then [config.oldAnchorId]
      else if at > config.overlapEnd then [config.newAnchorId]
      else [config.oldAnchorId, config.newAnchorId])
  }

  function EntryAt(s: Snapshot, at: Instant): TimepointEvidence {
    TimepointEvidence(at, ActiveList(s.config, at), RoundAt(s, at).items)
  }

  // --- All instants ---

  datatype Report = Report(affected: seq<AffectedService>, broken: seq<BrokenPath>)

  function ReportOver(s: Snapshot, points: seq<Instant>): Report {
    if points == [] then Report([], [])
    else
      var n := |points| - 1;
      var rest, round := ReportOver(s, points[..n]), RoundAt(s, points[n]);
      Report(rest.affected + round.affected, rest.broken + round.broken)
  }

  function EvidenceOver(s: Snapshot, points: seq<Instant>): seq<TimepointEvidence> {
    seq(|points|, k requires 0 <= k < |points| => EntryAt(s, points[k]))
  }

  function Explain(config: ScenarioConfig, affected: seq<AffectedService>, broken: seq<BrokenPath>)
    : Explanation
  {
    if affected == [] then AllReachable
    else Failures(|affected|, |broken|,
                  exists a :: a in affected && a.at < config.overlapStart,
                  exists a :: a in affected && a.at > config.overlapEnd)
  }

  /** The simulation of a snapshot whose services are listed in ascending id order. */
  function Simulation(s: Snapshot): SimulationResult {
    var report := ReportOver(s, CriticalTimes(s.config));
    SimulationResult(report.affected, report.broken, EvidenceOver(s, CriticalTimes(s.config)),
                     Explain(s.config, report.affected, report.broken))
  }

  // --- The imperative simulator ---

  function ItemKey(e: Evidence): int { e.serviceId }

  ghost predicate SameItems(e: TimepointEvidence, f: TimepointEvidence) {
    && e.at == f.at && e.activeAnchorIds == f.activeAnchorIds
    && SortedBy(e.services, ItemKey) && multiset(e.services) == multiset(f.services)
  }

  ghost predicate SameEvidence(e: seq<TimepointEvidence>, f: seq<TimepointEvidence>) {
    |e| == |f| && forall k :: 0 <= k < |e| ==> SameItems(e[k], f[k])
  }

  method ListActive(config: ScenarioConfig, at: Instant) returns (active: set<Id>, ids: seq<Id>)
    requires AnchorsDistinct(config)
    ensures active == ActiveAnchors(config, at) && ids == ActiveList(config, at)
  {
    active := ActiveAnchors(config, at);
    ids := MapKeys(active);
    IncreasingIsUnique(ids, ActiveList(config, at));
  }

  method EvaluateAll(s: Snapshot, at: Instant, active: set<Id>, chains: ChainTable)
    returns (direct: DirectTable)
    requires chains == ChainsById(s.chains) && active == ActiveAnchors(s.config, at)
    ensures direct == DirectAt(s, at)
  {
    direct := map[];
    for k := 0 to |s.services|
      invariant direct == DirectOver(s.services[..k], at, active, s.config.candidateChainIds, chains)
    {
      assert s.services[..k + 1][..k] == s.services[..k];
      if s.services[k].state != Active {
        continue;
      }
      var item := EvaluateDirect(s.services[k], at, active, s.config.candidateChainIds, chains);
      direct := direct[s.services[k].id := item];
    }
    assert s.services[..|s.services|] == s.services;
  }

  method SpellPath(table: map<Id, ServiceSnapshot>, path: seq<Id>) returns (codes: seq<string>)
    ensures codes == PathCodes(table, path)
  {
    codes := [];
    for i := 0 to |path|
      invariant codes == PathCodes(table, path[..i])
    {
      assert path[..i + 1][..i] == path[..i];
      if path[i] in table {
        codes := codes + [table[path[i]].code];
      }
    }
    assert path[..|path|] == path;
  }

  method RecordService(before: Round, service: ServiceSnapshot, at: Instant, direct: DirectTable,
                       table: map<Id, ServiceSnapshot>) returns (round: Round)
    ensures var (item, path) := Resolve(direct, Edges(table), {}, service.id, []);
      round == AddService(before, service, at, table, item, path)
  {
    var resolver := new Resolver(direct, table);
    var item, path := resolver.ResolveService(service.id, []);
    round := before.(items := before.items + [item]);
    if !item.reachable {
      var codes := SpellPath(table, path);
      round := round.(
        affected := round.affected
          + [AffectedService(service.id, service.code, service.criticality, at, item.reason)],
        broken := round.broken + [BrokenPath(at, codes, item.reason)]);
    }
  }

  method ResolveAllServices(s: Snapshot, at: Instant, direct: DirectTable,
                            table: map<Id, ServiceSnapshot>) returns (round: Round)
    ensures round == RoundOver(s.services, at, direct, table)
  {
    round := Round([], [], []);
    for k := 0 to |s.services|
      invariant round == RoundOver(s.services[..k], at, direct, table)
    {
      assert s.services[..k + 1][..k] == s.services[..k];
      if s.services[k].state != Active {
        continue;
      }
      round := RecordService(round, s.services[k], at, direct, table);
    }
    assert s.services[..|s.services|] == s.services;
  }

  method SortItems(items: seq<Evidence>) returns (r: seq<Evidence>)
    ensures SortedBy(r, ItemKey) && multiset(r) == multiset(items)
  {
    var slice := new Evidence[|items|](i requires 0 <= i < |items| => items[i]);
    assert slice[..] == items;
    SortSlice(slice, ItemKey);
    r := slice[..];
  }

  method ExplainResult(config: ScenarioConfig, affected: seq<AffectedService>,
                       broken: seq<BrokenPath>) returns (e: Explanation)
    ensures e == Explain(config, affected, broken)
  {
    if |affected| == 0 {
      return AllReachable;
    }
    var before, after := 0, 0;
    for k := 0 to |affected|
      invariant before >= 0 && after >= 0
      invariant before > 0 <==> exists j :: 0 <= j < k && affected[j].at < config.overlapStart
      invariant after > 0 <==> exists j :: 0 <= j < k && affected[j].at > config.overlapEnd
    {
      if affected[k].at < config.overlapStart {
        before := before + 1;
      }
      if affected[k].at > config.overlapEnd {
        after := after + 1;
      }
    }
    return Failures(|affected|, |broken|, before > 0, after > 0);
  }

  method TabulateChains(chains: seq<ChainSnapshot>) returns (table: ChainTable)
    ensures table == ChainsById(chains)
  {
    table := map[];
    for k := 0 to |chains|
      invariant table == ChainsById(chains[..k])
    {
      assert chains[..k + 1][..k] == chains[..k];
      table := table[chains[k].id := chains[k]];
    }
    assert chains[..|chains|] == chains;
  }

  method TabulateServices(services: seq<ServiceSnapshot>)
    returns (table: map<Id, ServiceSnapshot>)
    ensures table == ServicesById(services)
  {
    table := map[];
    for k := 0 to |services|
      invariant table == ServicesById(services[..k])
    {
      assert services[..k + 1][..k] == services[..k];
      table := table[services[k].id := services[k]];
    }
    assert services[..|services|] == services;
  }

  method SimulateInstant(s: Snapshot, at: Instant, chains: ChainTable,
                         table: map<Id, ServiceSnapshot>)
    returns (round: Round, entry: TimepointEvidence)
    requires AnchorsDistinct(s.config)
    requires chains == ChainsById(s.chains) && table == ServicesById(s.services)
    ensures round == RoundAt(s, at)
    ensures SameItems(entry, EntryAt(s, at))
  {
    var active, ids := ListActive(s.config, at);
    var direct := EvaluateAll(s, at, active, chains);
    round := ResolveAllServices(s, at, direct, table);
    var items := SortItems(round.items);
    entry := TimepointEvidence(at, ids, items);
  }

  method Simulate(s: Snapshot) returns (r: Result<SimulationResult, ValidationError>)
    ensures r.Success? <==> Accepts(s)
    ensures r.Failure? ==> Blames(s, r.error)
    ensures r.Success? ==>
      && r.value == Simulation(s).(evidence := r.value.evidence)
      && SameEvidence(r.value.evidence, Simulation(s).evidence)
    ensures r.Success? && StrictlySortedBy(s.services, ServiceKey) ==> r.value == Simulation(s)
  {
    var invalid := ValidateSnapshot(s);
    if invalid.Some? {
      return Failure(invalid.value);
    }
    var points := SampleTimes(s.config);
    var chains := TabulateChains(s.chains);
    var table := TabulateServices(s.services);
    var affected, broken, evidence := [], [], [];
    for k := 0 to |points|
      invariant affected == ReportOver(s, points[..k]).affected
      invariant broken == ReportOver(s, points[..k]).broken
      invariant SameEvidence(evidence, EvidenceOver(s, points[..k]))
    {
      assert points[..k + 1][..k] == points[..k];
      var round, entry := SimulateInstant(s, points[k], chains, table);
      affected := affected + round.affected;
      broken := broken + round.broken;
      evidence := evidence + [entry];
    }
    assert points[..|points|] == points;
    var explanation := ExplainResult(s.config, affected, broken);
    if StrictlySortedBy(s.services, ServiceKey) {
      SortedEvidenceIsEqual(s, points, evidence);
    }
    return Success(SimulationResult(affected, broken, evidence, explanation));
  }

  // --- On a canonical snapshot the items are in ascending id order before they are sorted ---

  /** Evidence about the service itself: nothing of it comes from another service. */
  ghost predicate Own(id: Id, e: Evidence) {
    e.serviceId == id && !e.reason.Upstream? && !e.reason.CycleEncountered?
  }

  ghost predicate OwnEvidence(direct: DirectTable) {
    forall id :: id in direct ==> Own(id, direct[id])
  }

  lemma {:induction false} ItemsFollowServices(services: seq<ServiceSnapshot>, at: Instant,
      direct: DirectTable, table: map<Id, ServiceSnapshot>)
    requires StrictlySortedBy(services, ServiceKey)
    requires OwnEvidence(direct)
    ensures var items := RoundOver(services, at, direct, table).items;
      && StrictlySortedBy(items, ItemKey)
      && (services == [] ==> items == [])
      && (forall e :: e in items && services != [] ==> e.serviceId <= services[|services| - 1].id)
  {
    if services != [] {
      var n := |services| - 1;
      ItemsFollowServices(services[..n], at, direct, table);
      ResolvedId(direct, Edges(table), {}, services[n].id);
      var rest := RoundOver(services[..n], at, direct, table).items;
      assert forall i :: 0 <= i < |rest| ==> rest[i] in rest && ItemKey(rest[i]) < services[n].id;
    }
  }

  lemma {:induction false} ResolvedId(direct: DirectTable, g: Graph, visiting: set<Id>, id: Id)
    requires OwnEvidence(direct)
    ensures Resolve(direct, g, visiting, id, []).0.serviceId == id
  {
    if id in direct && id !in visiting && direct[id].reachable {
      ResolvedIdOfAll(direct, g, visiting + {id}, direct[id], Next(g, id), [] + [id]);
    }
  }

  lemma {:induction false} ResolvedIdOfAll(direct: DirectTable, g: Graph, visiting: set<Id>,
      item: Evidence, dependencies: seq<Id>, path: seq<Id>)
    ensures ResolveAll(direct, g, visiting, item, dependencies, path).0.serviceId == item.serviceId
  {
    if dependencies != [] {
      ResolvedIdOfAll(direct, g, visiting, item, dependencies[1..], path);
    }
  }

  lemma {:induction false} ScanIsOwn(service: ServiceSnapshot, leaf: string, at: Instant,
      active: set<Id>, chains: ChainTable, ids: seq<Id>, rejections: seq<Rejection>)
    ensures Own(service.id, Scan(service, leaf, at, active, chains, ids, rejections))
  {
    if ids != [] {
      if ids[0] !in chains || chains[ids[0]].leafSubject != leaf {
        ScanIsOwn(service, leaf, at, active, chains, ids[1..], rejections);
      } else {
        match Refusal(service, chains[ids[0]], at, active)
        case Some(why) =>
          ScanIsOwn(service, leaf, at, active, chains, ids[1..], rejections + [why]);
        case None =>
      }
    }
  }

  lemma DirectIsOwn(service: ServiceSnapshot, at: Instant, active: set<Id>, candidates: seq<Id>,
                    chains: ChainTable)
    ensures Own(service.id, Direct(service, at, active, candidates, chains))
  {
    if service.chainId in chains {
      ScanIsOwn(service, chains[service.chainId].leafSubject, at, active, chains,
                SortedUnique([service.chainId] + candidates), []);
    }
  }

  lemma {:induction false} DirectOverIsOwn(services: seq<ServiceSnapshot>, at: Instant,
      active: set<Id>, candidates: seq<Id>, chains: ChainTable)
    ensures OwnEvidence(DirectOver(services, at, active, candidates, chains))
  {
    if services != [] {
      var n := |services| - 1;
      DirectOverIsOwn(services[..n], at, active, candidates, chains);
      DirectIsOwn(services[n], at, active, candidates, chains);
    }
  }

  lemma RoundItemsSorted(s: Snapshot, at: Instant)
    requires StrictlySortedBy(s.services, ServiceKey)
    ensures StrictlySortedBy(RoundAt(s, at).items, ItemKey)
  {
    DirectOverIsOwn(s.services, at, ActiveAnchors(s.config, at), s.config.candidateChainIds,
                  ChainsById(s.chains));
    ItemsFollowServices(s.services, at, DirectAt(s, at), ServicesById(s.services));
  }

  lemma SortedEvidenceIsEqual(s: Snapshot, points: seq<Instant>, evidence: seq<TimepointEvidence>)
    requires StrictlySortedBy(s.services, ServiceKey)
    requires SameEvidence(evidence, EvidenceOver(s, points))
    ensures evidence == EvidenceOver(s, points)
  {
    var expected := EvidenceOver(s, points);
    forall k | 0 <= k < |evidence| ensures evidence[k] == expected[k] {
      assert SameItems(evidence[k], expected[k]);
      RoundItemsSorted(s, points[k]);
      DistinctSortedIsStrict(evidence[k].services, expected[k].services, ItemKey);
      StrictOrderIsUnique(evidence[k].services, expected[k].services, ItemKey);
    }
  }
}
