/** What every interleaved run of the protocol keeps. */
module ScenarioRuns {
  import opened Access
  import opened Lifecycle
  import opened ScenarioProtocol
  import opened Snapshots

  // --- The audit trail of one entity ---

  datatype Trail = At(status: Status) | Broken

  predicate AllowedEdge(before: Status, after: Status) {
    match (before, after)
    case (Absent, InScenario(to)) => to == Draft
    case (Absent, InChain(to)) => to == Validated
    case (InScenario(from), InScenario(to)) => CanTransitionScenario(from, to)
    case (InChain(from), InChain(to)) => CanTransitionChain(from, to)
    case _ => false
  }

  /** Where the state-changing rows about an entity lead, if they join end to end. */
  function Follow(log: seq<AuditRow>, kind: Kind, id: Id): Trail {
    if log == [] then At(Absent)
    else
      var n := |log| - 1;
      var trail, row := Follow(log[..n], kind, id), log[n];
      if row.kind != kind || row.id != id || row.action == Replaying then trail
      else if trail == At(row.before) && AllowedEdge(row.before, row.after) then At(row.after)
      else Broken
  }

  /** A successful simulation of the scenario is logged after its last return to draft. */
  function SimulatedSinceDraft(log: seq<AuditRow>, id: Id): bool {
    if log == [] then false
    else
      var n := |log| - 1;
      var row := log[n];
      if row.kind != ScenarioKind || row.id != id then SimulatedSinceDraft(log[..n], id)
      else if row.action == Simulating then true
      else row.after != InScenario(Draft) && SimulatedSinceDraft(log[..n], id)
  }

  // --- The invariant ---

  ghost predicate RowInv(w: World, row: Scenario) {
    && row.inputHash == w.hash(row.input) && row.version == VERSION && w.accepts(row.input)
    && (row.key == "" ==> row.state == Draft && row.result == EMPTY_RESULT && !row.replayVerified)
    && (row.key != "" ==> row.result == w.simulate(row.input))
    && (row.verifiedBy.Some? <==> row.state == Verified)
    && (row.verifiedBy.Some? ==> row.verifiedBy.value != row.createdBy)
    && (row.rollbackRecord != "" ==> row.state == Rollback)
    && |row.key| <= MAX_KEY
  }

  ghost predicate UniqueRows(db: Db) {
    forall i, j :: i in db.scenarios && j in db.scenarios && i != j ==>
      db.scenarios[i].key != db.scenarios[j].key && !SameInput(db.scenarios[i], db.scenarios[j])
  }

  ghost predicate TrailsJoin(db: Db) {
    forall kind, id :: Follow(db.log, kind, id) == At(StatusOf(db, kind, id))
  }

  ghost predicate SimulatedBeforeUse(db: Db) {
    forall id :: id in db.scenarios && db.scenarios[id].state != Draft ==>
      SimulatedSinceDraft(db.log, id)
  }

  ghost predicate DbInv(w: World, db: Db) {
    && (forall id :: id in db.scenarios ==> RowInv(w, db.scenarios[id]))
    && UniqueRows(db)
    && TrailsJoin(db)
    && SimulatedBeforeUse(db)
  }

  ghost predicate SameFrozen(a: Scenario, b: Scenario) {
    && a.input == b.input && a.inputHash == b.inputHash
    && a.version == b.version && a.createdBy == b.createdBy
  }

  ghost predicate Holds(db: Db, id: Id, row: Scenario) {
    id in db.scenarios && SameFrozen(db.scenarios[id], row)
  }

  ghost predicate ClientInv(w: World, db: Db, c: Client) {
    match c
    case CreateReady(row, actor) =>
      w.accepts(row.input) && row == NewScenario(w, row.input, actor)
    case SimulateRead(id, key, _, row) => Holds(db, id, row) && 0 < |key| <= MAX_KEY
    case SimulateReady(id, key, _, row, result) =>
      && Holds(db, id, row) && 0 < |key| <= MAX_KEY
      && row.state == Draft && result == w.simulate(row.input)
    case TransitionReady(id, to, _, actor, row) =>
      && Holds(db, id, row) && to != Simulated && CanTransitionScenario(row.state, to)
      && (to == Verified ==> actor.userId != row.createdBy)
    case ReplayReady(id, _, row, passed) =>
      Holds(db, id, row) && db.scenarios[id].key != "" && row.state != Draft && passed
    case ImportReady(_) => true
    case ChainReady(id, to, _, from) => CanTransitionChain(from, to)
    case Answered(response) =>
      response != Refused(SimulationFailed) && response != Refused(ReplayDiffers)
  }

  ghost predicate Inv(w: World, s: State) {
    DbInv(w, s.db) && forall k :: k in s.clients ==> ClientInv(w, s.db, s.clients[k])
  }

  // --- Reading steps ---

  lemma BeginReplayKeepsInv(w: World, db: Db, id: Id, actor: Actor)
    requires DbInv(w, db)
    ensures ClientInv(w, db, BeginReplay(w, db, id, actor))
  {
    if id in db.scenarios {
      assert RowInv(w, db.scenarios[id]);
    }
  }

  lemma BeginTransitionKeepsInv(w: World, db: Db, id: Id, to: ScenarioState, comment: string,
                                actor: Actor)
    ensures ClientInv(w, db, BeginTransition(db, id, to, comment, actor))
  {
  }

  lemma BeginKeepsInv(w: World, db: Db, request: Request)
    requires DbInv(w, db)
    ensures ClientInv(w, db, Begin(w, db, request))
  {
    match request
    case TransitionScenario(id, to, comment, actor) =>
      BeginTransitionKeepsInv(w, db, id, to, comment, actor);
    case ReplayScenario(id, actor) => BeginReplayKeepsInv(w, db, id, actor);
    case _ =>
  }

  lemma LookupKeepsInv(w: World, db: Db, c: Client)
    requires DbInv(w, db) && c.SimulateRead? && ClientInv(w, db, c)
    ensures ClientInv(w, db, Lookup(w, db, c))
  {
    assert RowInv(w, db.scenarios[c.id]);
  }

  // --- Committing steps ---

  /** What no commit undoes, so that decisions taken earlier stay usable. */
  ghost predicate Evolves(db: Db, db': Db) {
    forall id :: id in db.scenarios ==>
      && id in db'.scenarios && SameFrozen(db.scenarios[id], db'.scenarios[id])
      && (db.scenarios[id].key != "" ==> db'.scenarios[id].key != "")
  }

  lemma ClientSurvives(w: World, db: Db, db': Db, c: Client)
    requires Evolves(db, db') && ClientInv(w, db, c)
    ensures ClientInv(w, db', c)
  {
  }

  /** The database after one logged write of entry's entity. */
  ghost predicate Logged(db: Db, db': Db, entry: AuditRow) {
    && db'.log == db.log + [entry]
    && (forall kind, id :: kind != entry.kind || id != entry.id ==>
          StatusOf(db', kind, id) == StatusOf(db, kind, id))
    && (if entry.action == Replaying then
          StatusOf(db', entry.kind, entry.id) == StatusOf(db, entry.kind, entry.id)
        else
          && StatusOf(db, entry.kind, entry.id) == entry.before
          && StatusOf(db', entry.kind, entry.id) == entry.after
          && AllowedEdge(entry.before, entry.after))
  }

  lemma LoggedTrailsJoin(db: Db, db': Db, entry: AuditRow)
    requires TrailsJoin(db) && Logged(db, db', entry)
    ensures TrailsJoin(db')
  {
    assert db'.log[..|db.log|] == db.log;
    forall kind, id ensures Follow(db'.log, kind, id) == At(StatusOf(db', kind, id)) {
      assert Follow(db.log, kind, id) == At(StatusOf(db, kind, id));
    }
  }

  /** A commit keeps the invariant, undoes no earlier decision and answers lawfully. */
  ghost predicate Lawful(w: World, db: Db, outcome: (Db, Response)) {
    DbInv(w, outcome.0) && Evolves(db, outcome.0) && ClientInv(w, outcome.0, Answered(outcome.1))
  }

  lemma PutKeepsUnique(db: Db, id: Id, row: Scenario, entry: AuditRow)
    requires UniqueRows(db)
    requires forall j :: j in db.scenarios && j != id ==>
      db.scenarios[j].key != row.key && !SameInput(db.scenarios[j], row)
    ensures UniqueRows(PutScenario(db, id, row, entry))
  {
  }

  lemma PutKeepsSimulated(db: Db, id: Id, row: Scenario, entry: AuditRow)
    requires SimulatedBeforeUse(db) && entry.kind == ScenarioKind && entry.id == id
    requires row.state != Draft ==> SimulatedSinceDraft(db.log + [entry], id)
    ensures SimulatedBeforeUse(PutScenario(db, id, row, entry))
  {
    assert (db.log + [entry])[..|db.log|] == db.log;
  }

  lemma PutKeepsRows(w: World, db: Db, id: Id, row: Scenario, entry: AuditRow)
    requires RowInv(w, row) && forall j :: j in db.scenarios ==> RowInv(w, db.scenarios[j])
    requires id in db.scenarios ==>
      SameFrozen(db.scenarios[id], row) && (db.scenarios[id].key != "" ==> row.key != "")
    ensures var db' := PutScenario(db, id, row, entry);
      && Evolves(db, db') && forall j :: j in db'.scenarios ==> RowInv(w, db'.scenarios[j])
  {
  }

  /** One scenario row is written and logged. */
  lemma PutKeepsInv(w: World, db: Db, id: Id, row: Scenario, entry: AuditRow)
    requires DbInv(w, db) && RowInv(w, row)
    requires entry.kind == ScenarioKind && entry.id == id
    requires Logged(db, PutScenario(db, id, row, entry), entry)
    requires forall j :: j in db.scenarios && j != id ==>
      db.scenarios[j].key != row.key && !SameInput(db.scenarios[j], row)
    requires id in db.scenarios ==>
      SameFrozen(db.scenarios[id], row) && (db.scenarios[id].key != "" ==> row.key != "")
    requires row.state != Draft ==> SimulatedSinceDraft(db.log + [entry], id)
    ensures DbInv(w, PutScenario(db, id, row, entry))
    ensures Evolves(db, PutScenario(db, id, row, entry))
  {
    var db' := PutScenario(db, id, row, entry);
    PutKeepsRows(w, db, id, row, entry);
    LoggedTrailsJoin(db, db', entry);
    PutKeepsUnique(db, id, row, entry);
    PutKeepsSimulated(db, id, row, entry);
  }

  lemma CreateIsLawful(w: World, db: Db, row: Scenario, actor: Actor, freshId: Id, auditOk: bool)
    requires DbInv(w, db) && ClientInv(w, db, CreateReady(row, actor))
    ensures Lawful(w, db, CommitCreate(db, row, actor, freshId, auditOk))
  {
    if freshId !in db.scenarios && !Collides(db, row) && auditOk {
      PutKeepsInv(w, db, freshId, row,
        AuditRow(ScenarioKind, freshId, Creating, Absent, InScenario(row.state), actor.userId));
    }
  }

  lemma SimulateIsLawful(w: World, db: Db, c: Client, auditOk: bool)
    requires DbInv(w, db) && c.SimulateReady? && ClientInv(w, db, c)
    ensures Lawful(w, db, CommitSimulate(db, c, auditOk))
  {
    if db.scenarios[c.id].state == Draft && !KeyTaken(db, c.key, c.id) && auditOk {
      assert RowInv(w, db.scenarios[c.id]);
      var row := db.scenarios[c.id].(state := Simulated, result := c.result, key := c.key);
      PutKeepsInv(w, db, c.id, row,
        AuditRow(ScenarioKind, c.id, Simulating, InScenario(c.row.state), InScenario(Simulated),
                 c.actor.userId));
    }
  }

  lemma TransitionIsLawful(w: World, db: Db, c: Client, auditOk: bool)
    requires DbInv(w, db) && c.TransitionReady? && ClientInv(w, db, c)
    ensures Lawful(w, db, CommitTransition(db, c, auditOk))
  {
    if db.scenarios[c.id].state == c.row.state && auditOk {
      var row := db.scenarios[c.id];
      assert RowInv(w, row);
      var entry := AuditRow(ScenarioKind, c.id, Moving, InScenario(c.row.state),
                            InScenario(c.to), c.actor.userId);
      assert (db.log + [entry])[..|db.log|] == db.log;
      PutKeepsInv(w, db, c.id, Moved(row, c.to, c.comment, c.actor), entry);
    }
  }

  lemma ReplayIsLawful(w: World, db: Db, c: Client, auditOk: bool)
    requires DbInv(w, db) && c.ReplayReady? && ClientInv(w, db, c)
    ensures Lawful(w, db, CommitReplay(db, c, auditOk))
  {
    if auditOk {
      var row := db.scenarios[c.id];
      assert RowInv(w, row);
      var entry := AuditRow(ScenarioKind, c.id, Replaying, InScenario(c.row.state),
                            InScenario(c.row.state), c.actor.userId);
      assert (db.log + [entry])[..|db.log|] == db.log;
      PutKeepsInv(w, db, c.id, row.(replayVerified := true), entry);
    }
  }

  lemma PutChainIsLawful(w: World, db: Db, id: Id, state: ChainState, entry: AuditRow,
                         response: Response)
    requires DbInv(w, db) && entry.kind == ChainKind && response == Done(id)
    requires Logged(db, db.(chains := db.chains[id := state], log := db.log + [entry]), entry)
    ensures Lawful(w, db, (db.(chains := db.chains[id := state], log := db.log + [entry]), response))
  {
    var db' := db.(chains := db.chains[id := state], log := db.log + [entry]);
    LoggedTrailsJoin(db, db', entry);
    assert db'.log[..|db.log|] == db.log;
  }

  lemma ImportIsLawful(w: World, db: Db, actor: Actor, freshId: Id, auditOk: bool)
    requires DbInv(w, db)
    ensures Lawful(w, db, CommitImport(db, actor, freshId, auditOk))
  {
    if freshId !in db.chains && auditOk {
      PutChainIsLawful(w, db, freshId, Validated,
        AuditRow(ChainKind, freshId, Importing, Absent, InChain(Validated), actor.userId), Done(freshId));
    }
  }

  lemma ChainIsLawful(w: World, db: Db, c: Client, auditOk: bool)
    requires DbInv(w, db) && c.ChainReady? && ClientInv(w, db, c)
    ensures Lawful(w, db, CommitChain(db, c, auditOk))
  {
    if c.id in db.chains && db.chains[c.id] == c.fromChain && auditOk {
      PutChainIsLawful(w, db, c.id, c.toChain,
        AuditRow(ChainKind, c.id, Moving, InChain(c.fromChain), InChain(c.toChain),
                 c.actor.userId), Done(c.id));
    }
  }

  lemma CommitIsLawful(w: World, db: Db, c: Client, freshId: Id, auditOk: bool)
    requires DbInv(w, db) && CanCommit(c) && ClientInv(w, db, c)
    ensures Lawful(w, db, Commit(db, c, freshId, auditOk))
  {
    match c
    case CreateReady(row, actor) => CreateIsLawful(w, db, row, actor, freshId, auditOk);
    case SimulateReady(_, _, _, _, _) => SimulateIsLawful(w, db, c, auditOk);
    case TransitionReady(_, _, _, _, _) => TransitionIsLawful(w, db, c, auditOk);
    case ReplayReady(_, _, _, _) => ReplayIsLawful(w, db, c, auditOk);
    case ImportReady(actor) => ImportIsLawful(w, db, actor, freshId, auditOk);
    case ChainReady(_, _, _, _) => ChainIsLawful(w, db, c, auditOk);
  }

  lemma StepKeepsInv(w: World, s: State, e: Event)
    requires Inv(w, s)
    ensures Inv(w, Step(w, s, e)) && Evolves(s.db, Step(w, s, e).db)
  {
    match e
    case Begins(k, request) => BeginKeepsInv(w, s.db, request);
    case LooksUp(k) =>
      if k in s.clients && s.clients[k].SimulateRead? {
        LookupKeepsInv(w, s.db, s.clients[k]);
      }
    case Commits(k, freshId, auditOk) =>
      if k in s.clients && CanCommit(s.clients[k]) {
        CommitIsLawful(w, s.db, s.clients[k], freshId, auditOk);
        var db' := Commit(s.db, s.clients[k], freshId, auditOk).0;
        forall j | j in s.clients ensures ClientInv(w, db', s.clients[j]) {
          ClientSurvives(w, s.db, db', s.clients[j]);
        }
      }
  }

  /** Every reachable state satisfies the invariant, and what was frozen stays as it was. */
  lemma {:induction false} RunKeepsInv(w: World, s: State, events: seq<Event>)
    requires Inv(w, s)
    ensures Inv(w, Run(w, s, events)) && Evolves(s.db, Run(w, s, events).db)
  {
    if events != [] {
      var n := |events| - 1;
      RunKeepsInv(w, s, events[..n]);
      StepKeepsInv(w, Run(w, s, events[..n]), events[n]);
    }
  }

  lemma InitialInv(w: World)
    ensures Inv(w, INITIAL)
  {
  }
}
