/**
 What the writers of the service table promise, stated over rows and requests alone: who may write
 what, and how a write shows in the next frozen snapshot.
 */
module RegistryLaws {
  import opened Access
  import opened Graphs
  import opened Ordering
  import opened Resolution
  import opened ServiceRegistry
  import opened SimulationLaws
  import opened Simulator
  import opened Snapshots

  // --- Exactly which writes are accepted ---

  /** An administrator or operator, or a service owner of the team. */
  ghost predicate Commands(actor: Actor, team: string) {
    match actor.role
    case Admin => true
    case PkiOperator => true
    case ServiceOwner => actor.team == team
    case _ => false
  }

  ghost predicate AllStored(ids: seq<Id>, stored: set<Id>) {
    forall id :: id in ids && id > 0 ==> id in stored
  }

  /** On a sound table a creation needs no look at the graph: nothing points at the new service yet. */
  lemma CreateAcceptedExact(t: Tables, req: ServiceRequest, actor: Actor, freshId: Id, auditOk: bool)
    requires Sound(t.rows)
    ensures Accepted(t, Create(req, actor, freshId, auditOk)) <==>
      && Commands(actor, req.ownerTeam)
      && req.chainId in t.chains && AllStored(req.trust, t.anchors) && AllStored(req.edges, t.rows.Keys)
      && (forall id :: id in t.rows ==> t.rows[id].code != req.code)
      && auditOk && freshId !in t.rows && 0 < freshId < 0xFFFF_FFFF_FFFF_FFFF
  {
    if ReferencesExist(t, 0, req) {
      CreateCheckPasses(t, req);
    }
  }

  /** Some requested dependency already depends on the service, directly or indirectly. */
  ghost predicate LeadsBack(rows: Rows, id: Id, edges: seq<Id>) {
    exists p :: RowWalk(rows, p) && p[0] in edges && p[0] > 0 && p[|p| - 1] == id
  }

  ghost predicate RowEdge(rows: Rows, a: Id, b: Id) {
    a in rows && b in rows[a].edges && b > 0
  }

  ghost predicate RowWalk(rows: Rows, p: seq<Id>) {
    p != [] && forall i :: 0 <= i < |p| - 1 ==> RowEdge(rows, p[i], p[i + 1])
  }

  lemma RowWalkExact(rows: Rows, p: seq<Id>)
    ensures RowWalk(rows, p) <==> IsPath(Dependencies(rows), p)
  {
    forall i | 0 <= i < |p| - 1
      ensures RowEdge(rows, p[i], p[i + 1]) <==> p[i + 1] in Next(Dependencies(rows), p[i])
    {
    }
  }

  /** A path to id that does not pass it before uses none of its edges. */
  lemma {:induction false} FirstVisit(g: Graph, p: seq<Id>, id: Id) returns (q: seq<Id>)
    requires IsPath(g, p) && p[|p| - 1] == id
    ensures IsPath(g, q) && q[0] == p[0] && q[|q| - 1] == id
    ensures forall i :: 0 <= i < |q| - 1 ==> q[i] != id
    decreases |p|
  {
    if i :| 0 <= i < |p| - 1 && p[i] == id {
      q := FirstVisit(g, p[..i + 1], id);
    } else {
      q := p;
    }
  }

  lemma OtherEdgesStay(g: Graph, id: Id, targets: seq<Id>, p: seq<Id>)
    requires forall i :: 0 <= i < |p| - 1 ==> p[i] != id
    ensures IsPath(g, p) <==> IsPath(g[id := targets], p)
  {
  }

  lemma ClosesCycle(g: Graph, id: Id, targets: seq<Id>, p: seq<Id>)
    requires IsPath(g, p) && p[0] in targets && p[|p| - 1] == id
    ensures OnCycle(g[id := targets], id)
  {
    var q := FirstVisit(g, p, id);
    OtherEdgesStay(g, id, targets, q);
    assert PathBetween(g[id := targets], [id] + q, id, id);
  }

  lemma OpensPath(g: Graph, id: Id, targets: seq<Id>, c: seq<Id>) returns (q: seq<Id>)
    requires IsPath(g[id := targets], c) && |c| >= 2 && c[0] == id && c[|c| - 1] == id
    ensures IsPath(g, q) && q[0] in targets && q[|q| - 1] == id
  {
    var h := g[id := targets];
    assert c[0 + 1] in Next(h, c[0]);
    assert IsPath(h, c[1..]);
    q := FirstVisit(h, c[1..], id);
    OtherEdgesStay(g, id, targets, q);
  }

  ghost predicate Returns(g: Graph, id: Id, targets: seq<Id>) {
    exists p :: IsPath(g, p) && p[0] in targets && p[|p| - 1] == id
  }

  lemma NewCycleReturns(g: Graph, id: Id, targets: seq<Id>, z: Id, c: seq<Id>)
    requires Acyclic(g) && PathBetween(g[id := targets], c, z, z) && |c| >= 2
    ensures Returns(g, id, targets)
  {
    var h := g[id := targets];
    if i :| 0 <= i < |c| && c[i] == id {
      assert IsPath(h, c[i..]) && IsPath(h, c[..i + 1]);
      PathsJoin(h, c[i..], c[..i + 1]);
      var q := OpensPath(g, id, targets, c[i..] + c[..i + 1][1..]);
    } else {
      OtherEdgesStay(g, id, targets, c);
      assert OnCycle(g, z) by {
        assert PathBetween(g, c, z, z);
      }
      assert false;
    }
  }

  /** New edges of one node of an acyclic graph close a cycle exactly when one of them leads back. */
  lemma NewEdgesExact(g: Graph, id: Id, targets: seq<Id>)
    requires Acyclic(g)
    ensures Acyclic(g[id := targets]) <==> !Returns(g, id, targets)
  {
    var h := g[id := targets];
    if p :| IsPath(g, p) && p[0] in targets && p[|p| - 1] == id {
      ClosesCycle(g, id, targets, p);
    } else if z :| OnCycle(h, z) {
      var c :| PathBetween(h, c, z, z) && |c| >= 2;
      NewCycleReturns(g, id, targets, z, c);
    }
  }

  lemma LeadsBackExact(rows: Rows, id: Id, edges: seq<Id>)
    ensures LeadsBack(rows, id, edges) <==> Returns(Dependencies(rows), id, SortedUnique(edges))
  {
    forall p ensures RowWalk(rows, p) <==> IsPath(Dependencies(rows), p) {
      RowWalkExact(rows, p);
    }
  }

  lemma UpdatedGraphExact(t: Tables, id: Id, req: ServiceRequest)
    requires Sound(t.rows) && id in t.rows && ReferencesExist(t, id, req)
    ensures Ordered(Dependencies(t.rows[id := ChangedRow(t.rows[id], req)])) <==>
      !LeadsBack(t.rows, id, req.edges)
  {
    NormalEdges(req.edges);
    DependenciesOfUpdate(t.rows, id, ChangedRow(t.rows[id], req));
    NewEdgesExact(Dependencies(t.rows), id, SortedUnique(req.edges));
    LeadsBackExact(t.rows, id, req.edges);
    ReferencesKeepClosed(t, id, req);
  }

  lemma OwnEdgeLeadsBack(rows: Rows, id: Id, edges: seq<Id>)
    requires id in edges && id > 0
    ensures LeadsBack(rows, id, edges)
  {
    assert RowWalk(rows, [id]) && [id][|[id]| - 1] == id;
  }

  /**
   On a sound table an update is accepted exactly when the caller commands both the stored and the
   requested team, everything requested is stored, and no requested dependency leads back.
   */
  lemma UpdateAcceptedExact(t: Tables, id: Id, req: ServiceRequest, actor: Actor, auditOk: bool)
    requires Sound(t.rows)
    ensures Accepted(t, Update(id, req, actor, auditOk)) <==>
      && id in t.rows && Commands(actor, t.rows[id].ownerTeam)
      && (actor.role == ServiceOwner ==> req.ownerTeam == actor.team)
      && req.chainId in t.chains && AllStored(req.trust, t.anchors) && AllStored(req.edges, t.rows.Keys)
      && !LeadsBack(t.rows, id, req.edges) && auditOk
  {
    if id in t.rows {
      if id in req.edges {
        OwnEdgeLeadsBack(t.rows, id, req.edges);
      }
      if ReferencesExist(t, id, req) {
        UpdatedGraphExact(t, id, req);
      }
    }
  }

  lemma DeactivateAcceptedExact(t: Tables, id: Id, actor: Actor, auditOk: bool)
    ensures Accepted(t, Deactivate(id, actor, auditOk)) <==>
      id in t.rows && Commands(actor, t.rows[id].ownerTeam) && t.rows[id].state == Active && auditOk
  {
  }

  // --- Why a write is refused ---

  ghost predicate ReferencesStored(t: Tables, req: ServiceRequest) {
    req.chainId in t.chains && AllStored(req.trust, t.anchors) && AllStored(req.edges, t.rows.Keys)
  }

  /** The first fault of the references: the chain, the anchors, then the least faulty dependency. */
  ghost predicate ReferenceFault(t: Tables, serviceId: Id, req: ServiceRequest, e: StoreError) {
    match e
    case ChainNotFound => req.chainId !in t.chains
    case AnchorNotFound => req.chainId in t.chains && !AllStored(req.trust, t.anchors)
    case SelfDependency =>
      && req.chainId in t.chains && AllStored(req.trust, t.anchors)
      && 0 < serviceId && serviceId in req.edges
      && forall d :: d in req.edges && 0 < d < serviceId ==> d in t.rows
    case DependencyNotFound =>
      && req.chainId in t.chains && AllStored(req.trust, t.anchors)
      && exists d :: d in req.edges && 0 < d && d != serviceId && d !in t.rows
                  && forall c :: c in req.edges && 0 < c < d ==> c in t.rows && c != serviceId
    case _ => false
  }

  lemma FirstFaultyDependency(t: Tables, serviceId: Id, req: ServiceRequest, k: nat)
    requires req.chainId in t.chains && AllStored(req.trust, t.anchors)
    requires k < |SortedUnique(req.edges)|
    requires forall j :: 0 <= j < k ==> var d := SortedUnique(req.edges)[j];
      d in t.rows && (serviceId == 0 || d != serviceId)
    ensures var d := SortedUnique(req.edges)[k];
      && (d == serviceId ==> ReferenceFault(t, serviceId, req, SelfDependency))
      && (d != serviceId && d !in t.rows ==> ReferenceFault(t, serviceId, req, DependencyNotFound))
  {
    var edges := SortedUnique(req.edges);
    assert edges[k] in edges;
    forall c | c in req.edges && 0 < c < edges[k]
      ensures c in t.rows && (serviceId == 0 || c != serviceId)
    {
      assert c in edges;
      var j :| 0 <= j < |edges| && edges[j] == c;
    }
  }

  lemma CycleRefused(t: Tables, id: Id, req: ServiceRequest)
    requires Sound(t.rows) && id in t.rows && ReferencesExist(t, id, req)
    ensures ReferencesStored(t, req) && id !in req.edges
    ensures Ordered(Dependencies(t.rows[id := ChangedRow(t.rows[id], req)])) <==>
      !LeadsBack(t.rows, id, req.edges)
  {
    UpdatedGraphExact(t, id, req);
  }

  /** The error names the first check that fails, in the order of the code. */
  ghost predicate RefusedFor(t: Tables, op: Op, e: StoreError) {
    match op
    case Create(req, actor, _, auditOk) =>
      (match e
       case Forbidden => !Commands(actor, req.ownerTeam)
       case CodeTaken =>
         && Commands(actor, req.ownerTeam) && ReferencesStored(t, req)
         && exists id :: id in t.rows && t.rows[id].code == req.code
       case AuditFailed =>
         && Commands(actor, req.ownerTeam) && ReferencesStored(t, req) && !auditOk
         && forall id :: id in t.rows ==> t.rows[id].code != req.code
       case _ => Commands(actor, req.ownerTeam) && ReferenceFault(t, 0, req, e))
    case Update(id, req, actor, auditOk) =>
      if id !in t.rows then e == NotFound
      else if !Commands(actor, t.rows[id].ownerTeam)
              || (actor.role == ServiceOwner && req.ownerTeam != actor.team) then e == Forbidden
      else (match e
        case WouldBeCyclic =>
          ReferencesStored(t, req) && id !in req.edges && LeadsBack(t.rows, id, req.edges)
        case AuditFailed => ReferencesStored(t, req) && !LeadsBack(t.rows, id, req.edges) && !auditOk
        case _ => ReferenceFault(t, id, req, e))
    case Deactivate(id, actor, auditOk) =>
      if id !in t.rows then e == NotFound
      else if !Commands(actor, t.rows[id].ownerTeam) then e == Forbidden
      else if t.rows[id].state == Inactive then e == AlreadyInactive
      else e == AuditFailed && !auditOk
  }

  // --- A write shows in the next snapshot ---

  /** The one service of the id, with what the request asked for. */
  ghost predicate FrozenAs(services: seq<ServiceSnapshot>, id: Id, code: string, req: ServiceRequest,
                           state: ServiceState)
  {
    exists x :: x in services && (forall y :: y in services && y.id == id ==> y == x)
      && x.id == id && x.code == code && x.chainId == req.chainId && x.criticality == req.criticality
      && PositiveMembersOf(x.trustAnchorIds, req.trust)
      && PositiveMembersOf(x.dependencyIds, req.edges) && x.state == state
  }

  lemma TheOnlyOne(services: seq<ServiceSnapshot>, x: ServiceSnapshot)
    requires DistinctBy(services, ServiceKey) && x in services
    ensures forall y :: y in services && y.id == x.id ==> y == x
  {
    forall y | y in services && y.id == x.id ensures y == x {
      var i, j :| 0 <= i < |services| && 0 <= j < |services| && services[i] == x && services[j] == y;
      assert ServiceKey(services[i]) == ServiceKey(services[j]);
    }
  }

  lemma RowIsFrozenAs(services: seq<ServiceSnapshot>, rows: Rows, id: Id, req: ServiceRequest)
    requires FrozenFrom(services, rows) && id in rows && Carries(rows[id], req)
    ensures FrozenAs(services, id, rows[id].code, req, rows[id].state)
  {
    var x :| x in services && x.id == id;
    TheOnlyOne(services, x);
  }

  /** A snapshot frozen after an accepted write holds the written service as it was requested. */
  lemma WrittenServiceIsFrozen(t: Tables, op: Op, services: seq<ServiceSnapshot>)
    requires Accepted(t, op) && FrozenFrom(services, After(t, op))
    ensures match op
      case Create(req, _, freshId, _) => FrozenAs(services, freshId, req.code, req, Active)
      case Update(id, req, _, _) => FrozenAs(services, id, t.rows[id].code, req, t.rows[id].state)
      case Deactivate(id, _, _) => !ActiveIn(services, id)
  {
    AcceptedWrites(t, op);
    match op
    case Create(req, _, freshId, _) => RowIsFrozenAs(services, After(t, op), freshId, req);
    case Update(id, req, _, _) => RowIsFrozenAs(services, After(t, op), id, req);
    case Deactivate(id, _, _) => ActiveRowsAreJudged(After(t, op), services, id);
  }

  /**
   In a snapshot frozen from the table, a deactivated service is never reported itself, and whatever
   depends on it, directly or indirectly, is unreachable at every instant.
   */
  lemma InactiveRowsFail(rows: Rows, s: Snapshot, id: Id, p: seq<Id>, at: Instant)
    requires FrozenFrom(s.services, rows) && id in rows && rows[id].state == Inactive
    ensures !Affects(Simulation(s).affected, id, at)
    ensures RowWalk(rows, p) && p[|p| - 1] == id ==> !ReachableAt(s, at, p[0])
  {
    var x :| x in s.services && x.id == id;
    TheOnlyOne(s.services, x);
    AffectedExact(s, id, at);
    if RowWalk(rows, p) && p[|p| - 1] == id {
      FrozenGraphMatches(s.services, rows);
      RowWalkExact(rows, p);
      ResolveExact(DirectAt(s, at), GraphOf(s), p[0]);
      DirectAtExact(s, at, x);
    }
  }

  /** Every active row is frozen as an active service, so it is judged. */
  lemma ActiveRowsAreJudged(rows: Rows, services: seq<ServiceSnapshot>, id: Id)
    requires FrozenFrom(services, rows)
    ensures ActiveIn(services, id) <==> id in rows && rows[id].state == Active
  {
    if id in rows {
      var x :| x in services && x.id == id;
      TheOnlyOne(services, x);
    }
  }
}
