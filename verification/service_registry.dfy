/**
 The table of dependent services. Its writers keep the dependency graph closed and acyclic, so a
 snapshot frozen from it always passes the simulator's own cycle check.
 */
module ServiceRegistry {
  import opened Access
  import opened Graphs
  import opened Ordering
  import opened Outcomes
  import opened Resolution
  import opened SimulationLaws
  import opened Simulator
  import opened Snapshots

  /** ^uint(0): the id under which Create checks a service that has none yet. */
  const SENTINEL: Id := 0xFFFF_FFFF_FFFF_FFFF

  datatype ServiceRow = ServiceRow(
    code: string, ownerTeam: string, chainId: Id, trust: seq<Id>, edges: seq<Id>,
    criticality: string, state: ServiceState)

  datatype ServiceRequest = ServiceRequest(
    code: string, ownerTeam: string, chainId: Id, trust: seq<Id>, edges: seq<Id>,
    criticality: string)

  datatype StoreError =
    | Forbidden
    | NotFound
    | ChainNotFound
    | AnchorNotFound
    | SelfDependency
    | DependencyNotFound
    | WouldBeCyclic
    | CodeTaken
    | AlreadyInactive
    | AuditFailed

  datatype StoreAudit = Created(id: Id) | Updated(id: Id) | Deactivated(id: Id)

  type Rows = map<Id, ServiceRow>

  datatype Tables = Tables(rows: Rows, chains: set<Id>, anchors: set<Id>)

  function Dependencies(rows: Rows): Graph {
    map id | id in rows :: SortedUnique(rows[id].edges)
  }

  ghost predicate Ordered(g: Graph) {
    Closed(g) && Acyclic(g)
  }

  ghost predicate Sound(rows: Rows) {
    && Ordered(Dependencies(rows))
    && (forall id :: id in rows ==> 0 < id < SENTINEL)
    && (forall i, j :: i in rows && j in rows && rows[i].code == rows[j].code ==> i == j)
  }

  // --- Decisions ---

  predicate MayWrite(actor: Actor, ownerTeam: string) {
    actor.role == Admin || actor.role == PkiOperator
    || (actor.role == ServiceOwner && actor.team == ownerTeam)
  }

  predicate MayUpdate(actor: Actor, row: ServiceRow, req: ServiceRequest) {
    MayWrite(actor, row.ownerTeam) && !(actor.role == ServiceOwner && req.ownerTeam != actor.team)
  }

  ghost predicate ReferencesExist(t: Tables, serviceId: Id, req: ServiceRequest) {
    && req.chainId in t.chains
    && (forall a :: a in SortedUnique(req.trust) ==> a in t.anchors)
    && (forall e :: e in SortedUnique(req.edges) ==> e in t.rows && (serviceId == 0 || e != serviceId))
  }

  function NewRow(req: ServiceRequest): ServiceRow {
    ServiceRow(req.code, req.ownerTeam, req.chainId, SortedUnique(req.trust),
               SortedUnique(req.edges), req.criticality, Active)
  }

  function ChangedRow(row: ServiceRow, req: ServiceRequest): ServiceRow {
    row.(ownerTeam := req.ownerTeam, chainId := req.chainId, trust := SortedUnique(req.trust),
         edges := SortedUnique(req.edges), criticality := req.criticality)
  }

  /** The list holds the positive members of the given one, each once, in ascending order. */
  ghost predicate PositiveMembersOf(list: seq<Id>, given: seq<Id>) {
    Increasing(list) && forall x :: x in list <==> x in given && x > 0
  }

  /** The row has what the request asks for, its code and state aside. */
  ghost predicate Carries(row: ServiceRow, req: ServiceRequest) {
    && row.ownerTeam == req.ownerTeam && row.chainId == req.chainId
    && PositiveMembersOf(row.trust, req.trust) && PositiveMembersOf(row.edges, req.edges)
    && row.criticality == req.criticality
  }

  predicate CodeTakenIn(rows: Rows, code: string) {
    exists id :: id in rows && rows[id].code == code
  }

  // --- The operations on values ---

  datatype Op =
    | Create(request: ServiceRequest, actor: Actor, freshId: Id, auditOk: bool)
    | Update(id: Id, request: ServiceRequest, actor: Actor, auditOk: bool)
    | Deactivate(id: Id, actor: Actor, auditOk: bool)

  /** What the database promises of a new primary key. */
  predicate FreshKey(rows: Rows, id: Id) {
    id !in rows && 0 < id < SENTINEL
  }

  ghost predicate Accepted(t: Tables, op: Op) {
    match op
    case Create(req, actor, freshId, auditOk) =>
      && MayWrite(actor, req.ownerTeam) && ReferencesExist(t, 0, req)
      && Ordered(Dependencies(t.rows[SENTINEL := NewRow(req)]))
      && !CodeTakenIn(t.rows, req.code) && auditOk && FreshKey(t.rows, freshId)
    case Update(id, req, actor, auditOk) =>
      && id in t.rows && MayUpdate(actor, t.rows[id], req) && ReferencesExist(t, id, req)
      && Ordered(Dependencies(t.rows[id := ChangedRow(t.rows[id], req)])) && auditOk
    case Deactivate(id, actor, auditOk) =>
      id in t.rows && MayWrite(actor, t.rows[id].ownerTeam) && t.rows[id].state == Active && auditOk
  }

  ghost function After(t: Tables, op: Op): Rows {
    if !Accepted(t, op) then t.rows
    else match op
      case Create(req, _, freshId, _) => t.rows[freshId := NewRow(req)]
      case Update(id, req, _, _) => t.rows[id := ChangedRow(t.rows[id], req)]
      case Deactivate(id, _, _) => t.rows[id := t.rows[id].(state := Inactive)]
  }

  /** What an accepted operation leaves in its row, and that it touches no other. */
  ghost predicate Writes(rows: Rows, op: Op, rows': Rows) {
    match op
    case Create(req, _, freshId, _) =>
      && freshId !in rows && rows'.Keys == rows.Keys + {freshId}
      && (forall id :: id in rows ==> rows'[id] == rows[id])
      && Carries(rows'[freshId], req)
      && rows'[freshId].code == req.code && rows'[freshId].state == Active
    case Update(id, req, _, _) =>
      && id in rows && rows'.Keys == rows.Keys
      && (forall j :: j in rows && j != id ==> rows'[j] == rows[j])
      && Carries(rows'[id], req)
      && rows'[id].code == rows[id].code && rows'[id].state == rows[id].state
    case Deactivate(id, _, _) =>
      && id in rows && rows'.Keys == rows.Keys
      && (forall j :: j in rows && j != id ==> rows'[j] == rows[j])
      && rows[id].state == Active && rows'[id].state == Inactive
      && rows'[id].code == rows[id].code && rows'[id].ownerTeam == rows[id].ownerTeam
      && rows'[id].chainId == rows[id].chainId && rows'[id].trust == rows[id].trust
      && rows'[id].edges == rows[id].edges && rows'[id].criticality == rows[id].criticality
  }

  lemma AcceptedWrites(t: Tables, op: Op)
    requires Accepted(t, op)
    ensures Writes(t.rows, op, After(t, op))
  {
  }

  // --- Create's check under the sentinel carries over to the stored id ---

  lemma NormalEdges(edges: seq<Id>)
    ensures SortedUnique(SortedUnique(edges)) == SortedUnique(edges)
  {
    SortedUniqueDetermined(SortedUnique(edges), edges);
  }

  lemma DependenciesOfUpdate(rows: Rows, id: Id, row: ServiceRow)
    ensures Dependencies(rows[id := row]) == Dependencies(rows)[id := SortedUnique(row.edges)]
  {
  }

  /** A graph that passes with a new node under one unused id passes with it under any other. */
  lemma CheckTransfers(g: Graph, checked: Id, stored: Id, targets: seq<Id>)
    requires Closed(g) && checked !in g && stored !in g
    requires Ordered(g[checked := targets])
    ensures Ordered(g[stored := targets])
  {
    var h := g[checked := targets];
    if checked in targets {
      SelfLoopIsCycle(h, checked);
    }
    forall y | y in targets ensures y in g {
      assert y in h[checked] && y in h;
    }
    FreshNodeAddsNoCycle(g, stored, targets);
    CyclesCarryOver(g, h);
  }

  /** On a sound table the check of Create cannot fail: nothing points at a new service yet. */
  lemma CreateCheckPasses(t: Tables, req: ServiceRequest)
    requires Sound(t.rows) && ReferencesExist(t, 0, req)
    ensures Ordered(Dependencies(t.rows[SENTINEL := NewRow(req)]))
  {
    NormalEdges(req.edges);
    DependenciesOfUpdate(t.rows, SENTINEL, NewRow(req));
    FreshNodeAddsNoCycle(Dependencies(t.rows), SENTINEL, SortedUnique(req.edges));
  }

  /** With its references checked, an update can only be refused for a real cycle. */
  lemma ReferencesKeepClosed(t: Tables, id: Id, req: ServiceRequest)
    requires Sound(t.rows) && id in t.rows && ReferencesExist(t, id, req)
    ensures Closed(Dependencies(t.rows[id := ChangedRow(t.rows[id], req)]))
  {
    NormalEdges(req.edges);
    DependenciesOfUpdate(t.rows, id, ChangedRow(t.rows[id], req));
  }

  lemma CreateKeepsSound(rows: Rows, req: ServiceRequest, freshId: Id)
    requires Sound(rows) && FreshKey(rows, freshId) && !CodeTakenIn(rows, req.code)
    requires Ordered(Dependencies(rows[SENTINEL := NewRow(req)]))
    ensures Sound(rows[freshId := NewRow(req)])
  {
    DependenciesOfUpdate(rows, SENTINEL, NewRow(req));
    DependenciesOfUpdate(rows, freshId, NewRow(req));
    CheckTransfers(Dependencies(rows), SENTINEL, freshId, SortedUnique(NewRow(req).edges));
  }

  lemma ChangeKeepsSound(rows: Rows, id: Id, row: ServiceRow)
    requires Sound(rows) && id in rows && row.code == rows[id].code
    requires Ordered(Dependencies(rows[id := row]))
    ensures Sound(rows[id := row])
  {
  }

  lemma AcceptedKeepsSound(t: Tables, op: Op)
    requires Sound(t.rows)
    ensures Sound(After(t, op))
  {
    if Accepted(t, op) {
      match op
      case Create(req, _, freshId, _) =>
        CreateKeepsSound(t.rows, req, freshId);
      case Update(id, req, _, _) =>
        ChangeKeepsSound(t.rows, id, ChangedRow(t.rows[id], req));
      case Deactivate(id, _, _) =>
        var row := t.rows[id].(state := Inactive);
        DependenciesOfUpdate(t.rows, id, row);
        assert Dependencies(t.rows)[id := SortedUnique(row.edges)] == Dependencies(t.rows);
        ChangeKeepsSound(t.rows, id, row);
    }
  }

  /** An operation with the chains and anchors that are stored when it runs. */
  datatype Write = Write(chains: set<Id>, anchors: set<Id>, op: Op)

  ghost function AfterAll(rows: Rows, writes: seq<Write>): Rows {
    if writes == [] then rows
    else
      var n := |writes| - 1;
      var last := writes[n];
      After(Tables(AfterAll(rows, writes[..n]), last.chains, last.anchors), last.op)
  }

  /**
   Every serial run of the three writers keeps the stored graph closed and acyclic, whatever happens
   to chains and anchors between the writes.
   */
  lemma {:induction false} SerialRunsKeepGraph(rows: Rows, writes: seq<Write>)
    requires Sound(rows)
    ensures Sound(AfterAll(rows, writes))
  {
    if writes != [] {
      var n := |writes| - 1;
      var last := writes[n];
      SerialRunsKeepGraph(rows, writes[..n]);
      AcceptedKeepsSound(Tables(AfterAll(rows, writes[..n]), last.chains, last.anchors), last.op);
    }
  }

  // --- Freezing ---

  function FrozenRow(id: Id, row: ServiceRow): ServiceSnapshot {
    ServiceSnapshot(id, row.code, row.chainId, SortedUnique(row.trust), SortedUnique(row.edges),
                    row.criticality, row.state)
  }

  /** The frozen service says what its row says; its lists keep the positive members, in order. */
  ghost predicate Freezes(x: ServiceSnapshot, row: ServiceRow) {
    && x.code == row.code && x.chainId == row.chainId
    && PositiveMembersOf(x.trustAnchorIds, row.trust)
    && PositiveMembersOf(x.dependencyIds, row.edges)
    && x.criticality == row.criticality && x.state == row.state
  }

  ghost predicate FrozenFrom(services: seq<ServiceSnapshot>, rows: Rows) {
    && DistinctBy(services, ServiceKey)
    && (forall x :: x in services ==> x.id in rows && Freezes(x, rows[x.id]))
    && (forall id :: id in rows ==> exists x :: x in services && x.id == id)
  }

  lemma FreezesExact(x: ServiceSnapshot, row: ServiceRow)
    ensures Freezes(x, row) <==> x == FrozenRow(x.id, row)
  {
    if Freezes(x, row) {
      IncreasingIsUnique(x.trustAnchorIds, SortedUnique(row.trust));
      IncreasingIsUnique(x.dependencyIds, SortedUnique(row.edges));
    }
  }

  lemma FrozenGraphMatches(services: seq<ServiceSnapshot>, rows: Rows)
    requires FrozenFrom(services, rows)
    ensures Edges(ServicesById(services)) == Dependencies(rows)
  {
    ServicesByIdExact(services);
    var table := ServicesById(services);
    assert table.Keys == rows.Keys;
    forall id | id in rows ensures table[id].dependencyIds == SortedUnique(rows[id].edges) {
      var x :| x in services && x.id == id;
      FreezesExact(x, rows[id]);
      assert table[x.id] == x;
    }
  }

  method FreezeRows(rows: Rows) returns (services: seq<ServiceSnapshot>)
    ensures FrozenFrom(services, rows)
  {
    services := [];
    var remaining := rows.Keys;
    while remaining != {}
      invariant remaining <= rows.Keys && DistinctBy(services, ServiceKey)
      invariant forall x :: x in services ==>
        x.id in rows && x.id !in remaining && Freezes(x, rows[x.id])
      invariant forall id :: id in rows && id !in remaining ==> exists x :: x in services && x.id == id
      decreases remaining
    {
      var id :| id in remaining;
      remaining := remaining - {id};
      ghost var before := services;
      services := services + [FrozenRow(id, rows[id])];
      FreezesExact(FrozenRow(id, rows[id]), rows[id]);
      assert forall x :: x in services <==> x in before || x == FrozenRow(id, rows[id]);
      assert forall i :: 0 <= i < |before| ==> before[i] in before;
    }
  }

  lemma CanonicalKeepsFrozen(s: Snapshot, config: ScenarioConfig, anchors: seq<AnchorSnapshot>,
                             chains: seq<ChainSnapshot>, services: seq<ServiceSnapshot>, rows: Rows)
    requires IsCanonicalOf(s, config, anchors, chains, services) && FrozenFrom(services, rows)
    ensures FrozenFrom(s.services, rows) && StrictlySortedBy(s.services, ServiceKey)
  {
    var normal := NormaliseAll(services);
    forall i | 0 <= i < |services| ensures normal[i] == services[i] {
      assert services[i] in services;
      FreezesExact(services[i], rows[services[i].id]);
      NormalEdges(rows[services[i].id].trust);
      NormalEdges(rows[services[i].id].edges);
    }
    assert normal == services;
    DistinctSortedIsStrict(s.services, services, ServiceKey);
  }

  /** The inputs of freezing that make a well-configured snapshot. */
  ghost predicate Configurable(config: ScenarioConfig, anchors: seq<AnchorSnapshot>,
                               chains: seq<ChainSnapshot>)
  {
    && AnchorsDistinct(config) && config.overlapStart < config.overlapEnd
    && config.simulationTime != 0
    && (exists a :: a in anchors && a.id == config.oldAnchorId)
    && (exists a :: a in anchors && a.id == config.newAnchorId)
    && forall id :: id in SortedUnique(config.candidateChainIds) ==>
         exists c :: c in chains && c.id == id
  }

  lemma CanonicalConfiguration(s: Snapshot, config: ScenarioConfig, anchors: seq<AnchorSnapshot>,
                               chains: seq<ChainSnapshot>, services: seq<ServiceSnapshot>)
    requires IsCanonicalOf(s, config, anchors, chains, services)
    ensures WellConfigured(s) <==> Configurable(config, anchors, chains)
  {
    forall a ensures a in s.anchors <==> a in anchors {
      assert a in s.anchors <==> a in multiset(s.anchors);
      assert a in anchors <==> a in multiset(anchors);
    }
    forall c ensures c in s.chains <==> c in chains {
      assert c in s.chains <==> c in multiset(s.chains);
      assert c in chains <==> c in multiset(chains);
    }
  }

  lemma CanonicalAcceptance(s: Snapshot, config: ScenarioConfig, anchors: seq<AnchorSnapshot>,
                            chains: seq<ChainSnapshot>, services: seq<ServiceSnapshot>, rows: Rows)
    requires IsCanonicalOf(s, config, anchors, chains, services) && FrozenFrom(services, rows)
    ensures FrozenFrom(s.services, rows) && StrictlySortedBy(s.services, ServiceKey)
    ensures Accepts(s) <==> Configurable(config, anchors, chains) && Acyclic(Dependencies(rows))
    ensures WellConfigured(s) <==> Configurable(config, anchors, chains)
  {
    CanonicalKeepsFrozen(s, config, anchors, chains, services, rows);
    CanonicalConfiguration(s, config, anchors, chains, services);
    FrozenGraphMatches(s.services, rows);
  }

  /** Hands the listed rows to the snapshot, which sorts them in place. */
  method FreezeLists(config: ScenarioConfig, anchors: seq<AnchorSnapshot>, chains: seq<ChainSnapshot>,
                     services: seq<ServiceSnapshot>)
    returns (s: Snapshot)
    ensures IsCanonicalOf(s, config, anchors, chains, services)
  {
    var a := new AnchorSnapshot[|anchors|](i requires 0 <= i < |anchors| => anchors[i]);
    var c := new ChainSnapshot[|chains|](i requires 0 <= i < |chains| => chains[i]);
    var v := new ServiceSnapshot[|services|](i requires 0 <= i < |services| => services[i]);
    assert a[..] == anchors && c[..] == chains && v[..] == services;
    s := NewSnapshot(config, a, c, v);
  }

  /** Freezes the tables into a validated snapshot, as the creation of a scenario does. */
  method BuildSnapshot(config: ScenarioConfig, anchors: seq<AnchorSnapshot>,
                       chains: seq<ChainSnapshot>, rows: Rows)
    returns (r: Result<Snapshot, ValidationError>)
    ensures r.Success? ==> Accepts(r.value) && FrozenFrom(r.value.services, rows)
    ensures r.Success? ==> StrictlySortedBy(r.value.services, ServiceKey)
    ensures r.Success? ==>
      && r.value.config == config.(candidateChainIds := SortedUnique(config.candidateChainIds))
      && multiset(r.value.anchors) == multiset(anchors)
      && multiset(r.value.chains) == multiset(chains)
    ensures r.Success? <==> Configurable(config, anchors, chains) && Acyclic(Dependencies(rows))
    ensures r.Failure? ==> (r.error.Cyclic? <==> Configurable(config, anchors, chains))
    ensures r.Failure? && Sound(rows) ==> !r.error.Cyclic?
  {
    var services := FreezeRows(rows);
    var s := FreezeLists(config, anchors, chains, services);
    CanonicalAcceptance(s, config, anchors, chains, services, rows);
    var invalid := ValidateSnapshot(s);
    if invalid.Some? {
      return Failure(invalid.value);
    }
    return Success(s);
  }
}
