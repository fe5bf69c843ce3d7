/** The writers of the dependent-service table, each committing one row and one audit entry. */
module ServiceStore {
  import opened Access
  import opened CycleCheck
  import opened Graphs
  import opened Outcomes
  import opened RegistryLaws
  import opened ServiceRegistry
  import opened Snapshots

  /** The store's own cycle check over the decoded edge lists of all rows. */
  method ServicesContainCycle(rows: Rows) returns (fault: Option<Fault>)
    ensures fault.None? <==> Ordered(Dependencies(rows))
    ensures fault.Some? ==> Justified(Dependencies(rows), true, fault.value)
  {
    var edges: Graph := map[];
    var remaining := rows.Keys;
    while remaining != {}
      invariant remaining <= rows.Keys && edges.Keys == rows.Keys - remaining
      invariant forall id :: id in edges ==> edges[id] == SortedUnique(rows[id].edges)
      decreases remaining
    {
      var id :| id in remaining;
      remaining := remaining - {id};
      var ids := CollectUnique(rows[id].edges);
      edges := edges[id := ids];
    }
    assert edges == Dependencies(rows);
    fault := CheckGraph(edges, true);
  }

  class DependentServiceStore {
    var rows: Rows
    var chains: set<Id>
    var anchors: set<Id>
    var audits: seq<StoreAudit>

    constructor (chains: set<Id>, anchors: set<Id>)
      ensures rows == map[] && Sound(rows) && audits == []
      ensures this.chains == chains && this.anchors == anchors
    {
      rows, audits := map[], [];
      this.chains, this.anchors := chains, anchors;
      new;
      assert Dependencies(rows) == map[];
      EmptyGraphIsOrdered(Dependencies(rows));
    }

    ghost function State(): Tables
      reads this
    {
      Tables(rows, chains, anchors)
    }

    method ValidateReferences(serviceId: Id, req: ServiceRequest) returns (e: Option<StoreError>)
      ensures e.None? <==> ReferencesExist(State(), serviceId, req)
      ensures e.Some? ==> ReferenceFault(State(), serviceId, req, e.value)
    {
      if req.chainId !in chains {
        return Some(ChainNotFound);
      }
      var trust := CollectUnique(req.trust);
      if exists a :: a in trust && a !in anchors {
        return Some(AnchorNotFound);
      }
      var edges := CollectUnique(req.edges);
      for k := 0 to |edges|
        invariant forall j :: 0 <= j < k ==>
          edges[j] in rows && (serviceId == 0 || edges[j] != serviceId)
      {
        assert edges[k] in SortedUnique(req.edges);
        FirstFaultyDependency(State(), serviceId, req, k);
        if edges[k] == serviceId && serviceId != 0 {
          return Some(SelfDependency);
        }
        if edges[k] !in rows {
          return Some(DependencyNotFound);
        }
      }
      return None;
    }

    method CreateService(req: ServiceRequest, actor: Actor, freshId: Id, auditOk: bool)
      returns (r: Result<Id, StoreError>)
      requires Sound(rows) && FreshKey(rows, freshId)
      modifies this`rows, this`audits
      ensures Sound(rows)
      ensures r.Success? <==> Accepted(old(State()), Create(req, actor, freshId, auditOk))
      ensures rows == After(old(State()), Create(req, actor, freshId, auditOk))
      ensures r.Success? ==> Writes(old(rows), Create(req, actor, freshId, auditOk), rows)
      ensures r.Failure? ==> rows == old(rows) && RefusedFor(old(State()), Create(req, actor, freshId, auditOk), r.error)
      ensures audits == old(audits) + if r.Success? then [Created(freshId)] else []
      ensures r.Failure? ==> !r.error.WouldBeCyclic?
    {
      AcceptedKeepsSound(State(), Create(req, actor, freshId, auditOk));
      if !MayWrite(actor, req.ownerTeam) {
        return Failure(Forbidden);
      }
      var invalid := ValidateReferences(0, req);
      if invalid.Some? {
        return Failure(invalid.value);
      }
      CreateCheckPasses(State(), req);
      var trust := CollectUnique(req.trust);
      var edges := CollectUnique(req.edges);
      var row := ServiceRow(req.code, req.ownerTeam, req.chainId, trust, edges, req.criticality, Active);
      var fault := ServicesContainCycle(rows[SENTINEL := row]);
      if fault.Some? {
        return Failure(WouldBeCyclic);
      }
      if CodeTakenIn(rows, req.code) {
        return Failure(CodeTaken);
      }
      var saved := rows;
      rows := rows[freshId := row];
      if !auditOk {
        rows := saved;
        return Failure(AuditFailed);
      }
      audits := audits + [Created(freshId)];
      return Success(freshId);
    }

    /** The checks of an update, in their order, before its transaction. */
    method CheckUpdate(id: Id, req: ServiceRequest, actor: Actor) returns (e: Option<StoreError>)
      requires Sound(rows)
      ensures e.None? <==> Accepted(State(), Update(id, req, actor, true))
      ensures e.None? ==> RefusedFor(State(), Update(id, req, actor, false), AuditFailed)
      ensures e == Some(WouldBeCyclic) ==>
        id in rows && !Acyclic(Dependencies(rows[id := ChangedRow(rows[id], req)]))
      ensures e.Some? ==> e.value != AuditFailed && RefusedFor(State(), Update(id, req, actor, true), e.value)
    {
      if id !in rows {
        return Some(NotFound);
      }
      if !MayUpdate(actor, rows[id], req) {
        return Some(Forbidden);
      }
      var invalid := ValidateReferences(id, req);
      if invalid.Some? {
        return invalid;
      }
      CycleRefused(State(), id, req);
      ReferencesKeepClosed(State(), id, req);
      var trust := CollectUnique(req.trust);
      var edges := CollectUnique(req.edges);
      var row := rows[id].(ownerTeam := req.ownerTeam, chainId := req.chainId, trust := trust,
                           edges := edges, criticality := req.criticality);
      var fault := ServicesContainCycle(rows[id := row]);
      if fault.Some? {
        return Some(WouldBeCyclic);
      }
      return None;
    }

    method UpdateService(id: Id, req: ServiceRequest, actor: Actor, auditOk: bool)
      returns (r: Result<Id, StoreError>)
      requires Sound(rows)
      modifies this`rows, this`audits
      ensures Sound(rows)
      ensures r.Success? <==> Accepted(old(State()), Update(id, req, actor, auditOk))
      ensures rows == After(old(State()), Update(id, req, actor, auditOk))
      ensures r.Success? ==> Writes(old(rows), Update(id, req, actor, auditOk), rows)
      ensures r.Failure? ==> rows == old(rows) && RefusedFor(old(State()), Update(id, req, actor, auditOk), r.error)
      ensures audits == old(audits) + if r.Success? then [Updated(id)] else []
      ensures r.Failure? && r.error.WouldBeCyclic? ==>
        id in old(rows) && !Acyclic(Dependencies(old(rows)[id := ChangedRow(old(rows)[id], req)]))
    {
      AcceptedKeepsSound(State(), Update(id, req, actor, auditOk));
      var refused := CheckUpdate(id, req, actor);
      if refused.Some? {
        return Failure(refused.value);
      }
      var trust := CollectUnique(req.trust);
      var edges := CollectUnique(req.edges);
      var saved := rows;
      rows := rows[id := rows[id].(ownerTeam := req.ownerTeam, chainId := req.chainId, trust := trust,
                                   edges := edges, criticality := req.criticality)];
      if !auditOk {
        rows := saved;
        return Failure(AuditFailed);
      }
      audits := audits + [Updated(id)];
      return Success(id);
    }

    method DeactivateService(id: Id, actor: Actor, auditOk: bool)
      returns (r: Result<Id, StoreError>)
      requires Sound(rows)
      modifies this`rows, this`audits
      ensures Sound(rows)
      ensures r.Success? <==> Accepted(old(State()), Deactivate(id, actor, auditOk))
      ensures rows == After(old(State()), Deactivate(id, actor, auditOk))
      ensures r.Success? ==> Writes(old(rows), Deactivate(id, actor, auditOk), rows)
      ensures r.Failure? ==> rows == old(rows) && RefusedFor(old(State()), Deactivate(id, actor, auditOk), r.error)
      ensures audits == old(audits) + if r.Success? then [Deactivated(id)] else []
    {
      AcceptedKeepsSound(State(), Deactivate(id, actor, auditOk));
      if id !in rows {
        return Failure(NotFound);
      }
      if !MayWrite(actor, rows[id].ownerTeam) {
        return Failure(Forbidden);
      }
      if rows[id].state != Active {
        return Failure(AlreadyInactive);
      }
      var saved := rows;
      rows := rows[id := rows[id].(state := Inactive)];
      if !auditOk {
        rows := saved;
        return Failure(AuditFailed);
      }
      audits := audits + [Deactivated(id)];
      return Success(id);
    }
  }

  lemma EmptyGraphIsOrdered(g: Graph)
    requires g == map[]
    ensures Ordered(g)
  {
    OrderedGraphIsAcyclic(g, []);
  }
}
