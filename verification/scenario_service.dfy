/**
 The scenario service over its tables. Each request is split at its transaction: the reading part
 returns what it decided, the committing part performs a conditional write and appends the audit
 row, and puts the tables back when either fails.
 */
module ScenarioService {
  import opened Access
  import opened Graphs
  import opened Lifecycle
  import opened Ordering
  import opened Outcomes
  import opened Resolution
  import opened ScenarioLaws
  import opened ScenarioProtocol
  import opened ScenarioRuns
  import opened ServiceRegistry
  import opened SimulationLaws
  import opened Simulator
  import opened Snapshots
  import opened TrustPaths

  /** A listing returns at most one page of chains, and creation freezes only that page. */
  const PAGE := 200

  function FirstPage(chains: seq<ChainSnapshot>): seq<ChainSnapshot> {
    if |chains| > PAGE then chains[..PAGE] else chains
  }

  /** The stored anchors with one of the two ids, in the order of the table. */
  function PickAnchors(anchors: seq<AnchorSnapshot>, a: Id, b: Id): seq<AnchorSnapshot> {
    if anchors == [] then []
    else
      var n := |anchors| - 1;
      PickAnchors(anchors[..n], a, b)
      + if anchors[n].id == a || anchors[n].id == b then [anchors[n]] else []
  }

  ghost predicate StoresAnchor(anchors: seq<AnchorSnapshot>, id: Id) {
    exists x :: x in anchors && x.id == id
  }

  lemma {:induction false} PickedAnchors(anchors: seq<AnchorSnapshot>, a: Id, b: Id)
    requires DistinctBy(anchors, AnchorKey) && a != b
    ensures var picked := PickAnchors(anchors, a, b);
      && |picked| == (if StoresAnchor(anchors, a) then 1 else 0) + (if StoresAnchor(anchors, b) then 1 else 0)
      && (forall x :: x in picked <==> x in anchors && (x.id == a || x.id == b))
  {
    if anchors != [] {
      var n := |anchors| - 1;
      PickedAnchors(anchors[..n], a, b);
      assert forall x :: x in anchors <==> x in anchors[..n] || x == anchors[n];
      assert forall i :: 0 <= i < n ==> AnchorKey(anchors[i]) != AnchorKey(anchors[n]);
    }
  }

  /** Exactly when a scenario can be frozen: its own checks, and candidates on the first page. */
  ghost predicate Creatable(config: ScenarioConfig, anchors: seq<AnchorSnapshot>,
                            chains: seq<ChainSnapshot>)
  {
    && AnchorsDistinct(config) && config.overlapStart < config.overlapEnd
    && config.simulationTime != 0
    && StoresAnchor(anchors, config.oldAnchorId) && StoresAnchor(anchors, config.newAnchorId)
    && forall id :: id in SortedUnique(config.candidateChainIds) ==>
         OnFirstPage(chains, id)
  }

  /** A chain of the id is among the first 200 listed ones. */
  ghost predicate OnFirstPage(chains: seq<ChainSnapshot>, id: Id) {
    exists i :: 0 <= i < |chains| && i < 200 && chains[i].id == id
  }

  lemma FirstPageExact(chains: seq<ChainSnapshot>)
    ensures FirstPage(chains) == chains[..if |chains| < 200 then |chains| else 200]
    ensures forall id :: OnFirstPage(chains, id) <==> exists c :: c in FirstPage(chains) && c.id == id
  {
    forall id | OnFirstPage(chains, id) ensures exists c :: c in FirstPage(chains) && c.id == id {
      var i :| 0 <= i < |chains| && i < 200 && chains[i].id == id;
      assert FirstPage(chains)[i] in FirstPage(chains);
    }
  }

  ghost predicate CandidatesListed(config: ScenarioConfig, chains: seq<ChainSnapshot>) {
    forall id :: id in SortedUnique(config.candidateChainIds) ==> exists c :: c in chains && c.id == id
  }

  lemma CreatableExact(config: ScenarioConfig, anchors: seq<AnchorSnapshot>, chains: seq<ChainSnapshot>)
    requires DistinctBy(anchors, AnchorKey) && config.oldAnchorId != config.newAnchorId
    ensures var found := PickAnchors(anchors, config.oldAnchorId, config.newAnchorId);
      && (Creatable(config, anchors, chains) <==>
            |found| == 2 && Configurable(config, found, FirstPage(chains)))
      && (Creatable(config, anchors, chains) ==> CandidatesListed(config, chains))
  {
    PickedAnchors(anchors, config.oldAnchorId, config.newAnchorId);
    FirstPageExact(chains);
  }

  /** The input holds the request with its two anchors and the first page of chains. */
  ghost predicate FrozenRequest(input: Snapshot, config: ScenarioConfig, anchors: seq<AnchorSnapshot>,
                                chains: seq<ChainSnapshot>)
  {
    && input.config == config.(candidateChainIds := SortedUnique(config.candidateChainIds))
    && multiset(input.anchors)
       == multiset(PickAnchors(anchors, config.oldAnchorId, config.newAnchorId))
    && multiset(input.chains) == multiset(chains[..if |chains| < 200 then |chains| else 200])
  }

  /**
   A service is reported, at every instant, as having no chain of its own exactly when that chain is
   not on the first page; whatever depends on it is then unreachable too.
   */
  lemma OffPageMeansMissing(input: Snapshot, config: ScenarioConfig, anchors: seq<AnchorSnapshot>,
                            chains: seq<ChainSnapshot>, x: ServiceSnapshot, at: Instant)
    requires FrozenRequest(input, config, anchors, chains)
    requires DistinctBy(input.services, ServiceKey) && x in input.services && x.state == Active
    ensures (forall i :: 0 <= i < |chains| && i < 200 ==> chains[i].id != x.chainId) <==>
      Resolve(DirectAt(input, at), GraphOf(input), {}, x.id, []).0 == Evidence(x.id, x.code, false, 0, 0, ChainMissing)
    ensures (forall i :: 0 <= i < |chains| && i < 200 ==> chains[i].id != x.chainId) ==>
      forall p :: IsPath(GraphOf(input), p) && p[|p| - 1] == x.id ==> !ReachableAt(input, at, p[0])
  {
    forall c ensures c in input.chains <==> c in FirstPage(chains) {
      assert c in input.chains <==> c in multiset(input.chains);
      assert c in FirstPage(chains) <==> c in multiset(FirstPage(chains));
    }
    ChainsByIdKeys(input.chains);
    MissingChainExact(input, at, x);
  }

  /** So the service of a stored chain beyond the first page is never reachable. */
  lemma ChainBeyondPageIsLost(input: Snapshot, config: ScenarioConfig, anchors: seq<AnchorSnapshot>,
                              chains: seq<ChainSnapshot>, i: nat, x: ServiceSnapshot, at: Instant)
    requires FrozenRequest(input, config, anchors, chains) && DistinctBy(chains, ChainKey)
    requires DistinctBy(input.services, ServiceKey) && x in input.services && x.state == Active
    requires 200 <= i < |chains| && chains[i].id == x.chainId
    ensures !ReachableAt(input, at, x.id)
    ensures Resolve(DirectAt(input, at), GraphOf(input), {}, x.id, []).0 == Evidence(x.id, x.code, false, 0, 0, ChainMissing)
  {
    forall j | 0 <= j < 200 ensures chains[j].id != x.chainId {
      assert ChainKey(chains[j]) != ChainKey(chains[i]);
    }
    OffPageMeansMissing(input, config, anchors, chains, x, at);
    assert IsPath(GraphOf(input), [x.id]);
  }

  class RolloverScenarioService {
    const hash: Snapshot -> Digest
    var scenarios: map<Id, Scenario>
    var chains: map<Id, ChainState>
    var log: seq<AuditRow>

    ghost function Contents(): Db
      reads this
    {
      Db(scenarios, chains, log)
    }

    ghost predicate Valid()
      reads this
    {
      DbInv(Real(hash), Contents())
    }

    constructor (hash: Snapshot -> Digest)
      ensures this.hash == hash && Valid() && Contents() == INITIAL.db
    {
      this.hash := hash;
      scenarios, chains, log := map[], map[], [];
      new;
      InitialInv(Real(hash));
    }

    // --- The repository: conditional writes and unique indexes ---

    method CompleteSimulation(id: Id, result: SimulationResult, key: string)
      returns (changed: bool, duplicate: bool)
      modifies this`scenarios
      ensures changed <==> id in old(scenarios) && old(scenarios)[id].state == Draft
                           && !KeyTaken(old(Contents()), key, id)
      ensures duplicate <==> id in old(scenarios) && old(scenarios)[id].state == Draft
                             && KeyTaken(old(Contents()), key, id)
      ensures scenarios == if changed
        then old(scenarios)[
               id := old(scenarios)[id].(state := Simulated, result := result, key := key)]
        else old(scenarios)
    {
      if id !in scenarios || scenarios[id].state != Draft {
        return false, false;
      }
      if exists j :: j in scenarios && j != id && scenarios[j].key == key {
        return false, true;
      }
      scenarios := scenarios[id := scenarios[id].(state := Simulated, result := result, key := key)];
      return true, false;
    }

    method MoveScenario(id: Id, from: ScenarioState, to: ScenarioState, comment: string, actor: Actor)
      returns (changed: bool)
      modifies this`scenarios
      ensures changed <==> id in old(scenarios) && old(scenarios)[id].state == from
      ensures scenarios == if changed
        then old(scenarios)[id := Moved(old(scenarios)[id], to, comment, actor)]
        else old(scenarios)
    {
      if id !in scenarios || scenarios[id].state != from {
        return false;
      }
      var row := scenarios[id].(state := to);
      if to == Verified {
        row := row.(verifiedBy := Some(actor.userId));
      }
      if to == Rollback {
        row := row.(rollbackRecord := comment);
      }
      scenarios := scenarios[id := row];
      return true;
    }

    method RecordAudit(entry: AuditRow, available: bool) returns (recorded: bool)
      modifies this`log
      ensures recorded == available
      ensures log == if recorded then old(log) + [entry] else old(log)
    {
      if available {
        log := log + [entry];
      }
      return available;
    }

    // --- Creation ---

    /** Freezes the tables for a request, or refuses it. */
    method FreezeRequest(config: ScenarioConfig, anchors: seq<AnchorSnapshot>,
                         chainRows: seq<ChainSnapshot>, rows: Rows)
      returns (input: Option<Snapshot>)
      requires DistinctBy(anchors, AnchorKey)
      ensures input.Some? <==> Creatable(config, anchors, chainRows) && Acyclic(Dependencies(rows))
      ensures input.Some? ==>
        && Freezable(input.value) && FrozenFrom(input.value.services, rows)
        && FrozenRequest(input.value, config, anchors, chainRows)
    {
      if config.oldAnchorId == config.newAnchorId {
        return None;
      }
      CreatableExact(config, anchors, chainRows);
      var found := PickAnchors(anchors, config.oldAnchorId, config.newAnchorId);
      if |found| != 2 {
        return None;
      }
      var candidates := CollectUnique(config.candidateChainIds);
      if exists id :: id in candidates && !(exists c :: c in chainRows && c.id == id) {
        return None;
      }
      var built := BuildSnapshot(config, found, FirstPage(chainRows), rows);
      if built.Failure? {
        return None;
      }
      FirstPageExact(chainRows);
      return Some(built.value);
    }

    /** Everything Create does before its transaction, over the tables it reads. */
    method ReadForCreation(config: ScenarioConfig, anchors: seq<AnchorSnapshot>,
                           chainRows: seq<ChainSnapshot>, rows: Rows, actor: Actor)
      returns (c: Client)
      requires DistinctBy(anchors, AnchorKey)
      ensures c.CreateReady? <==>
        Creatable(config, anchors, chainRows) && Acyclic(Dependencies(rows))
      ensures c.CreateReady? ==>
        && c == Begin(Real(hash), Contents(), CreateScenario(c.draft.input, actor))
        && Freezable(c.draft.input) && FrozenFrom(c.draft.input.services, rows)
        && ClientInv(Real(hash), Contents(), c)
      ensures c.CreateReady? ==> FrozenRequest(c.draft.input, config, anchors, chainRows)
      ensures !c.CreateReady? ==> c == Refuse(InvalidInput)
    {
      var frozen := FreezeRequest(config, anchors, chainRows, rows);
      if frozen.None? {
        return Refuse(InvalidInput);
      }
      var input := frozen.value;
      return CreateReady(
        Scenario(input, hash(input), VERSION, actor.userId, Draft, EMPTY_RESULT, "", None, false, ""),
        actor);
    }

    method CreateTransaction(c: Client, freshId: Id, auditOk: bool) returns (response: Response)
      requires c.CreateReady?
      modifies this`scenarios, this`log
      ensures (Contents(), response)
           == CommitCreate(old(Contents()), c.draft, c.actor, freshId, auditOk)
    {
      var row := c.draft;
      if freshId in scenarios
         || exists j :: j in scenarios && (scenarios[j].key == row.key || SameInput(scenarios[j], row)) {
        return Refused(Duplicate);
      }
      var saved := scenarios;
      scenarios := scenarios[freshId := row];
      var recorded := RecordAudit(
        AuditRow(ScenarioKind, freshId, Creating, Absent, InScenario(row.state), c.actor.userId), auditOk);
      if !recorded {
        scenarios := saved;
        return Refused(Error.AuditFailed);
      }
      return Done(freshId);
    }

    method CreateDraft(c: Client, freshId: Id, auditOk: bool) returns (response: Response)
      requires c.CreateReady? && Valid() && ClientInv(Real(hash), Contents(), c)
      modifies this`scenarios, this`log
      ensures (Contents(), response)
           == CommitCreate(old(Contents()), c.draft, c.actor, freshId, auditOk)
      ensures Valid() && Evolves(old(Contents()), Contents())
    {
      CommitIsLawful(Real(hash), Contents(), c, freshId, auditOk);
      response := CreateTransaction(c, freshId, auditOk);
    }

    // --- Simulation ---

    method ReadForSimulation(id: Id, key: string, actor: Actor) returns (c: Client)
      requires Valid()
      ensures c == Begin(Real(hash), Contents(), SimulateScenario(id, key, actor))
      ensures ClientInv(Real(hash), Contents(), c)
    {
      BeginKeepsInv(Real(hash), Contents(), SimulateScenario(id, key, actor));
      if key == "" {
        return Refuse(KeyRequired);
      }
      if |key| > MAX_KEY {
        return Refuse(KeyTooLong);
      }
      if id !in scenarios {
        return Refuse(Error.NotFound);
      }
      if !MayManage(actor, scenarios[id]) {
        return Refuse(Error.Forbidden);
      }
      return SimulateRead(id, key, actor, scenarios[id]);
    }

    method FindByIdempotencyKey(key: string) returns (found: Option<Id>)
      ensures found.Some? ==> found.value in scenarios && scenarios[found.value].key == key
      ensures found.None? ==> forall j :: j in scenarios ==> scenarios[j].key != key
    {
      var remaining := scenarios.Keys;
      while remaining != {}
        invariant remaining <= scenarios.Keys
        invariant forall j :: j in scenarios && j !in remaining ==> scenarios[j].key != key
        decreases remaining
      {
        var j :| j in remaining;
        if scenarios[j].key == key {
          return Some(j);
        }
        remaining := remaining - {j};
      }
      return None;
    }

    method CheckKeyAndSimulate(c: Client) returns (next: Client)
      requires Valid() && c.SimulateRead? && ClientInv(Real(hash), Contents(), c)
      ensures next == Lookup(Real(hash), Contents(), c)
      ensures ClientInv(Real(hash), Contents(), next)
    {
      LookupKeepsInv(Real(hash), Contents(), c);
      assert RowInv(Real(hash), scenarios[c.id]);
      var prior := FindByIdempotencyKey(c.key);
      if prior.Some? {
        if prior.value != c.id {
          return Refuse(KeyBoundElsewhere);
        }
        return Answered(Reused(c.id, scenarios[c.id]));
      }
      if c.row.state != Draft {
        return Refuse(OnlyDraftSimulates);
      }
      var result := Simulate(c.row.input);
      if result.Failure? {
        return Refuse(SimulationFailed);
      }
      return SimulateReady(c.id, c.key, c.actor, c.row, result.value);
    }

    method SimulationTransaction(c: Client, auditOk: bool) returns (response: Response)
      requires c.SimulateReady?
      modifies this`scenarios, this`log
      ensures (Contents(), response)
           == CommitSimulate(old(Contents()), c, auditOk)
    {
      var saved := scenarios;
      var changed, duplicate := CompleteSimulation(c.id, c.result, c.key);
      if duplicate {
        return Refused(Duplicate);
      }
      if !changed {
        return Refused(ChangedConcurrently);
      }
      var recorded := RecordAudit(
        AuditRow(ScenarioKind, c.id, Simulating, InScenario(c.row.state), InScenario(Simulated),
                 c.actor.userId), auditOk);
      if !recorded {
        scenarios := saved;
        return Refused(Error.AuditFailed);
      }
      return Done(c.id);
    }

    method CommitSimulation(c: Client, auditOk: bool) returns (response: Response)
      requires c.SimulateReady? && Valid() && ClientInv(Real(hash), Contents(), c)
      modifies this`scenarios, this`log
      ensures (Contents(), response) == CommitSimulate(old(Contents()), c, auditOk)
      ensures Valid() && Evolves(old(Contents()), Contents())
    {
      CommitIsLawful(Real(hash), Contents(), c, 0, auditOk);
      response := SimulationTransaction(c, auditOk);
    }

    // --- Transition ---

    method ReadForTransition(id: Id, to: ScenarioState, comment: string, actor: Actor)
      returns (c: Client)
      requires Valid()
      ensures c == Begin(Real(hash), Contents(), TransitionScenario(id, to, comment, actor))
      ensures ClientInv(Real(hash), Contents(), c)
    {
      BeginKeepsInv(Real(hash), Contents(), TransitionScenario(id, to, comment, actor));
      if to == Simulated {
        return Refuse(InvalidTarget);
      }
      if id !in scenarios {
        return Refuse(Error.NotFound);
      }
      var row := scenarios[id];
      if to != Verified {
        if !MayManage(actor, row) {
          return Refuse(Error.Forbidden);
        }
      }
      if !CanTransitionScenario(row.state, to) {
        return Refuse(IllegalTransition);
      }
      if to == Verified && row.createdBy == actor.userId {
        return Refuse(ReviewerConflict);
      }
      return TransitionReady(id, to, comment, actor, row);
    }

    method MoveTransaction(c: Client, auditOk: bool) returns (response: Response)
      requires c.TransitionReady?
      modifies this`scenarios, this`log
      ensures (Contents(), response)
           == CommitTransition(old(Contents()), c, auditOk)
    {
      var saved := scenarios;
      var changed := MoveScenario(c.id, c.row.state, c.to, c.comment, c.actor);
      if !changed {
        return Refused(ChangedConcurrently);
      }
      var recorded := RecordAudit(
        AuditRow(ScenarioKind, c.id, Moving, InScenario(c.row.state), InScenario(c.to),
                 c.actor.userId), auditOk);
      if !recorded {
        scenarios := saved;
        return Refused(Error.AuditFailed);
      }
      return Done(c.id);
    }

    method CommitMove(c: Client, auditOk: bool) returns (response: Response)
      requires c.TransitionReady? && Valid() && ClientInv(Real(hash), Contents(), c)
      modifies this`scenarios, this`log
      ensures (Contents(), response) == CommitTransition(old(Contents()), c, auditOk)
      ensures Valid() && Evolves(old(Contents()), Contents())
    {
      CommitIsLawful(Real(hash), Contents(), c, 0, auditOk);
      response := MoveTransaction(c, auditOk);
    }

    // --- Replay ---

    method ReadAndReplay(id: Id, actor: Actor) returns (c: Client)
      requires Valid()
      ensures c == Begin(Real(hash), Contents(), ReplayScenario(id, actor))
      ensures ClientInv(Real(hash), Contents(), c)
    {
      BeginKeepsInv(Real(hash), Contents(), ReplayScenario(id, actor));
      if id !in scenarios {
        return Refuse(Error.NotFound);
      }
      var row := scenarios[id];
      assert RowInv(Real(hash), row);
      if !MayManage(actor, row) {
        return Refuse(Error.Forbidden);
      }
      if row.state == Draft {
        return Refuse(NoStoredResult);
      }
      var result := Simulate(row.input);
      if result.Failure? {
        return Refuse(SimulationFailed);
      }
      return ReplayReady(id, actor, row, result.value == row.result);
    }

    method ReplayTransaction(c: Client, auditOk: bool) returns (response: Response)
      requires c.ReplayReady?
      modifies this`scenarios, this`log
      ensures (Contents(), response)
           == CommitReplay(old(Contents()), c, auditOk)
    {
      if c.id !in scenarios {
        return Refused(Error.NotFound);
      }
      var saved := scenarios;
      scenarios := scenarios[c.id := scenarios[c.id].(replayVerified := c.passed)];
      var recorded := RecordAudit(
        AuditRow(ScenarioKind, c.id, Replaying, InScenario(c.row.state), InScenario(c.row.state),
                 c.actor.userId), auditOk);
      if !recorded {
        scenarios := saved;
        return Refused(Error.AuditFailed);
      }
      return if c.passed then Done(c.id) else Refused(ReplayDiffers);
    }

    method CommitReplayEvidence(c: Client, auditOk: bool) returns (response: Response)
      requires c.ReplayReady? && Valid() && ClientInv(Real(hash), Contents(), c)
      modifies this`scenarios, this`log
      ensures (Contents(), response) == CommitReplay(old(Contents()), c, auditOk)
      ensures Valid() && Evolves(old(Contents()), Contents())
    {
      CommitIsLawful(Real(hash), Contents(), c, 0, auditOk);
      response := ReplayTransaction(c, auditOk);
    }

    // --- Certificate chains ---

    method ReadForChainTransition(id: Id, to: ChainState, actor: Actor) returns (c: Client)
      ensures c == Begin(Real(hash), Contents(), TransitionChain(id, to, actor))
      ensures ClientInv(Real(hash), Contents(), c)
    {
      if id !in chains {
        return Refuse(Error.NotFound);
      }
      if !CanTransitionChain(chains[id], to) {
        return Refuse(IllegalTransition);
      }
      return ChainReady(id, to, actor, chains[id]);
    }

    method ImportTransaction(actor: Actor, freshId: Id, auditOk: bool) returns (response: Response)
      modifies this`chains, this`log
      ensures (Contents(), response) == CommitImport(old(Contents()), actor, freshId, auditOk)
    {
      if freshId in chains {
        return Refused(Duplicate);
      }
      var saved := chains;
      chains := chains[freshId := Validated];
      var recorded := RecordAudit(
        AuditRow(ChainKind, freshId, Importing, Absent, InChain(Validated), actor.userId), auditOk);
      if !recorded {
        chains := saved;
        return Refused(Error.AuditFailed);
      }
      return Done(freshId);
    }

    method CommitImportedChain(actor: Actor, freshId: Id, auditOk: bool) returns (response: Response)
      requires Valid()
      modifies this`chains, this`log
      ensures (Contents(), response) == CommitImport(old(Contents()), actor, freshId, auditOk)
      ensures Valid() && Evolves(old(Contents()), Contents())
    {
      CommitIsLawful(Real(hash), Contents(), ImportReady(actor), freshId, auditOk);
      response := ImportTransaction(actor, freshId, auditOk);
    }

    method ChainTransaction(c: Client, auditOk: bool) returns (response: Response)
      requires c.ChainReady?
      modifies this`chains, this`log
      ensures (Contents(), response)
           == CommitChain(old(Contents()), c, auditOk)
    {
      if c.id !in chains || chains[c.id] != c.fromChain {
        return Refused(ChangedConcurrently);
      }
      var saved := chains;
      chains := chains[c.id := c.toChain];
      var recorded := RecordAudit(
        AuditRow(ChainKind, c.id, Moving, InChain(c.fromChain), InChain(c.toChain),
                 c.actor.userId), auditOk);
      if !recorded {
        chains := saved;
        return Refused(Error.AuditFailed);
      }
      return Done(c.id);
    }

    method CommitChainMove(c: Client, auditOk: bool) returns (response: Response)
      requires c.ChainReady? && Valid() && ClientInv(Real(hash), Contents(), c)
      modifies this`chains, this`log
      ensures (Contents(), response) == CommitChain(old(Contents()), c, auditOk)
      ensures Valid() && Evolves(old(Contents()), Contents())
    {
      CommitIsLawful(Real(hash), Contents(), c, 0, auditOk);
      response := ChainTransaction(c, auditOk);
    }
  }
}
