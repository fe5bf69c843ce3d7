/** The promises of the scenario and chain life cycles, over every interleaved run. */
module ScenarioLaws {
  import opened Access
  import opened Lifecycle
  import opened Ordering
  import opened Outcomes
  import opened ScenarioProtocol
  import opened ScenarioRuns
  import opened Simulator
  import opened Snapshots

  /** Every state an interleaving of requests, failed audits included, can lead to. */
  ghost predicate Reachable(w: World, s: State) {
    exists events :: Run(w, INITIAL, events) == s
  }

  lemma ReachableInv(w: World, s: State)
    requires Reachable(w, s)
    ensures Inv(w, s)
  {
    var events :| Run(w, INITIAL, events) == s;
    InitialInv(w);
    RunKeepsInv(w, INITIAL, events);
  }

  lemma StepsReach(w: World, s: State, e: Event)
    requires Reachable(w, s)
    ensures Reachable(w, Step(w, s, e))
  {
    var events :| Run(w, INITIAL, events) == s;
    assert (events + [e])[..|events|] == events;
    assert Run(w, INITIAL, events + [e]) == Step(w, s, e);
  }

  // --- Audit ---

  /** Per entity, the state-changing audit rows join end to end and lead to the stored state. */
  lemma AuditTrailsJoin(w: World, s: State, kind: Kind, id: Id)
    requires Reachable(w, s)
    ensures Follow(s.db.log, kind, id) == At(StatusOf(s.db, kind, id))
  {
    ReachableInv(w, s);
  }

  ghost predicate OthersUntouched(db: Db, db': Db, entry: AuditRow) {
    && (forall j :: j in db.scenarios && (entry.kind != ScenarioKind || j != entry.id) ==>
          j in db'.scenarios && db'.scenarios[j] == db.scenarios[j])
    && (forall j :: j in db.chains && (entry.kind != ChainKind || j != entry.id) ==>
          j in db'.chains && db'.chains[j] == db.chains[j])
  }

  /**
   A step changes nothing in the database, or it writes one entity along an allowed edge and
   appends exactly one audit row that says so.
   */
  lemma EveryWriteIsAudited(w: World, s: State, e: Event)
    requires Reachable(w, s)
    ensures var s' := Step(w, s, e);
      s'.db == s.db ||
      exists entry :: Logged(s.db, s'.db, entry) && OthersUntouched(s.db, s'.db, entry)
  {
    ReachableInv(w, s);
    var db' := Step(w, s, e).db;
    if db' != s.db {
      var c := s.clients[e.client];
      assert ClientInv(w, s.db, c);
      var entry := db'.log[|s.db.log|];
      assert Logged(s.db, db', entry) && OthersUntouched(s.db, db', entry) by {
        CommitIsLogged(w, s.db, c, e.freshId, e.auditOk);
      }
    }
  }

  ghost predicate OneAuditedWrite(db: Db, db': Db) {
    && |db'.log| == |db.log| + 1
    && Logged(db, db', db'.log[|db.log|]) && OthersUntouched(db, db', db'.log[|db.log|])
  }

  lemma CreateIsLogged(db: Db, row: Scenario, actor: Actor, freshId: Id, auditOk: bool)
    requires row.state == Draft && CommitCreate(db, row, actor, freshId, auditOk).0 != db
    ensures auditOk && OneAuditedWrite(db, CommitCreate(db, row, actor, freshId, auditOk).0)
  {
  }

  lemma SimulateIsLogged(db: Db, c: Client, auditOk: bool)
    requires c.SimulateReady? && c.row.state == Draft && CommitSimulate(db, c, auditOk).0 != db
    ensures auditOk && OneAuditedWrite(db, CommitSimulate(db, c, auditOk).0)
  {
  }

  lemma TransitionIsLogged(db: Db, c: Client, auditOk: bool)
    requires c.TransitionReady? && CanTransitionScenario(c.row.state, c.to)
    requires CommitTransition(db, c, auditOk).0 != db
    ensures auditOk && OneAuditedWrite(db, CommitTransition(db, c, auditOk).0)
  {
  }

  lemma ReplayIsLogged(db: Db, c: Client, auditOk: bool)
    requires c.ReplayReady? && CommitReplay(db, c, auditOk).0 != db
    ensures auditOk && OneAuditedWrite(db, CommitReplay(db, c, auditOk).0)
  {
  }

  lemma ChainIsLogged(db: Db, c: Client, auditOk: bool)
    requires c.ChainReady? && CanTransitionChain(c.fromChain, c.toChain)
    requires CommitChain(db, c, auditOk).0 != db
    ensures auditOk && OneAuditedWrite(db, CommitChain(db, c, auditOk).0)
  {
  }

  lemma ImportIsLogged(db: Db, actor: Actor, freshId: Id, auditOk: bool)
    requires CommitImport(db, actor, freshId, auditOk).0 != db
    ensures auditOk && OneAuditedWrite(db, CommitImport(db, actor, freshId, auditOk).0)
  {
  }

  lemma CommitIsLogged(w: World, db: Db, c: Client, freshId: Id, auditOk: bool)
    requires CanCommit(c) && ClientInv(w, db, c)
    requires Commit(db, c, freshId, auditOk).0 != db
    ensures auditOk && OneAuditedWrite(db, Commit(db, c, freshId, auditOk).0)
  {
    match c
    case CreateReady(row, actor) => CreateIsLogged(db, row, actor, freshId, auditOk);
    case SimulateReady(_, _, _, _, _) => SimulateIsLogged(db, c, auditOk);
    case TransitionReady(_, _, _, _, _) => TransitionIsLogged(db, c, auditOk);
    case ReplayReady(_, _, _, _) => ReplayIsLogged(db, c, auditOk);
    case ImportReady(actor) => ImportIsLogged(db, actor, freshId, auditOk);
    case ChainReady(_, _, _, _) => ChainIsLogged(db, c, auditOk);
  }

  /** The client has decided to move scenario id out of the given state. */
  predicate Decided(c: Client, id: Id, from: ScenarioState) {
    (c.SimulateReady? || c.TransitionReady?) && c.id == id && c.row.state == from
  }

  predicate AnsweredWith(s: State, k: nat, response: Response) {
    k in s.clients && s.clients[k] == Answered(response)
  }

  /** The commit of a decision goes through: the state is the one read, and nothing else forbids it. */
  predicate GoesThrough(db: Db, c: Client, from: ScenarioState, auditOk: bool)
    requires c.SimulateReady? || c.TransitionReady?
  {
    && c.id in db.scenarios && db.scenarios[c.id].state == from && auditOk
    && (c.SimulateReady? ==> !KeyTaken(db, c.key, c.id))
  }

  lemma DecidedCommit(db: Db, c: Client, id: Id, from: ScenarioState, freshId: Id, auditOk: bool)
    requires Decided(c, id, from) && (c.SimulateReady? ==> from == Draft) && id in db.scenarios
    ensures var (db', response) := Commit(db, c, freshId, auditOk);
      && (response == Done(id) <==> GoesThrough(db, c, from, auditOk))
      && (response != Done(id) ==> db' == db)
      && (db.scenarios[id].state != from ==> response == Refused(ChangedConcurrently))
      && (response == Done(id) ==>
            && id in db'.scenarios
            && db'.scenarios[id].state == (if c.SimulateReady? then Simulated else c.to))
  {
  }

  lemma DecisionIsSound(w: World, s: State, j: nat, id: Id, from: ScenarioState)
    requires Reachable(w, s) && j in s.clients && Decided(s.clients[j], id, from)
    ensures id in s.db.scenarios && (s.clients[j].SimulateReady? ==> from == Draft)
    ensures s.clients[j].TransitionReady? ==> s.clients[j].to != from
  {
    ReachableInv(w, s);
    assert ClientInv(w, s.db, s.clients[j]);
  }

  lemma {:induction false} IdleClientKeepsDecision(w: World, s: State, events: seq<Event>, j: nat)
    requires j in s.clients && forall i :: 0 <= i < |events| ==> events[i].client != j
    ensures j in Run(w, s, events).clients && Run(w, s, events).clients[j] == s.clients[j]
  {
    if events != [] {
      IdleClientKeepsDecision(w, s, events[..|events| - 1], j);
    }
  }

  /**
   A decision commits after any run in which its client does nothing, exactly when the scenario is
   again (or still) in the state that was read, no other row took the key, and the audit append
   succeeds. Otherwise nothing is written.
   */
  lemma DelayedCommitExact(w: World, s: State, events: seq<Event>, j: nat, id: Id,
                           from: ScenarioState, freshId: Id, auditOk: bool)
    requires Reachable(w, s) && j in s.clients && Decided(s.clients[j], id, from)
    requires forall i :: 0 <= i < |events| ==> events[i].client != j
    ensures var late := Run(w, s, events);
      var done := Step(w, late, Commits(j, freshId, auditOk));
      && (AnsweredWith(done, j, Done(id)) <==> GoesThrough(late.db, s.clients[j], from, auditOk))
      && (!AnsweredWith(done, j, Done(id)) ==> done.db == late.db)
      && (StatusOf(late.db, ScenarioKind, id) != InScenario(from) ==>
            AnsweredWith(done, j, Refused(ChangedConcurrently)))
  {
    var c, late := s.clients[j], Run(w, s, events);
    DecisionIsSound(w, s, j, id, from);
    FrozenInputSurvives(w, s, events, id);
    IdleClientKeepsDecision(w, s, events, j);
    DecidedCommit(late.db, c, id, from, freshId, auditOk);
    assert Step(w, late, Commits(j, freshId, auditOk)).clients[j]
        == Answered(Commit(late.db, c, freshId, auditOk).1);
  }

  /** Of two decisions on the same state, the second is refused when it commits right after the first. */
  lemma SecondCommitLoses(w: World, s: State, i: nat, j: nat, id: Id, from: ScenarioState,
                          auditOk: bool)
    requires Reachable(w, s) && i in s.clients && j in s.clients && i != j
    requires Decided(s.clients[i], id, from) && Decided(s.clients[j], id, from)
    requires Step(w, s, Commits(i, 0, true)).db != s.db
    ensures var won := Step(w, s, Commits(i, 0, true));
      var lost := Step(w, won, Commits(j, 0, auditOk));
      lost.db == won.db && lost.clients[j] == Answered(Refused(ChangedConcurrently))
  {
    DecisionIsSound(w, s, i, id, from);
    DecisionIsSound(w, s, j, id, from);
    DecidedCommit(s.db, s.clients[i], id, from, 0, true);
    DecidedCommit(Commit(s.db, s.clients[i], 0, true).0, s.clients[j], id, from, 0, auditOk);
  }

  // --- Frozen input and stored results ---

  /** Whatever happens later, the frozen input, its hash, the version and the creator stay. */
  lemma FrozenInputSurvives(w: World, s: State, events: seq<Event>, id: Id)
    requires Reachable(w, s) && id in s.db.scenarios
    ensures var db' := Run(w, s, events).db;
      && id in db'.scenarios && SameFrozen(s.db.scenarios[id], db'.scenarios[id])
      && db'.scenarios[id].inputHash == w.hash(db'.scenarios[id].input)
  {
    ReachableInv(w, s);
    RunKeepsInv(w, s, events);
    assert RowInv(w, Run(w, s, events).db.scenarios[id]);
  }

  /** A scenario past draft, or verified by replay, stores exactly the simulation of its input. */
  lemma StoredResultIsSimulation(w: World, s: State, id: Id)
    requires Reachable(w, s) && id in s.db.scenarios
    requires s.db.scenarios[id].state != Draft || s.db.scenarios[id].replayVerified
    ensures s.db.scenarios[id].result == w.simulate(s.db.scenarios[id].input)
  {
    ReachableInv(w, s);
    assert RowInv(w, s.db.scenarios[id]);
  }

  /** No draft ever fails the validation of its simulation and no replay ever differs. */
  lemma SimulationsAndReplaysSucceed(w: World, s: State, k: nat)
    requires Reachable(w, s) && k in s.clients
    ensures s.clients[k] != Answered(Refused(SimulationFailed))
    ensures s.clients[k] != Answered(Refused(ReplayDiffers))
    ensures s.clients[k].ReplayReady? ==> s.clients[k].passed
  {
    ReachableInv(w, s);
    assert ClientInv(w, s.db, s.clients[k]);
  }

  // --- Verification ---

  lemma {:induction false} SimulationIsLogged(log: seq<AuditRow>, id: Id)
    requires SimulatedSinceDraft(log, id)
    ensures exists i :: 0 <= i < |log| && SimulatedAt(log, id, i)
  {
    var n := |log| - 1;
    if log[n].kind == ScenarioKind && log[n].id == id && log[n].action == Simulating {
      assert SimulatedAt(log, id, n);
    } else {
      SimulationIsLogged(log[..n], id);
      var i :| 0 <= i < n && SimulatedAt(log[..n], id, i);
      assert SimulatedAt(log, id, i);
    }
  }

  /** Row i logs a simulation of the scenario after which no row takes it back to draft. */
  ghost predicate SimulatedAt(log: seq<AuditRow>, id: Id, i: nat) {
    && i < |log| && log[i].kind == ScenarioKind && log[i].id == id && log[i].action == Simulating
    && forall j :: i < j < |log| && log[j].kind == ScenarioKind && log[j].id == id ==>
         log[j].after != InScenario(Draft)
  }

  /**
   A verifier is on record exactly for verified scenarios and is never the creator, and every
   scenario past draft was simulated after its last visit to draft.
   */
  lemma VerificationIsIndependent(w: World, s: State, id: Id)
    requires Reachable(w, s) && id in s.db.scenarios
    ensures var row := s.db.scenarios[id];
      && (row.verifiedBy.Some? <==> row.state == Verified)
      && (row.verifiedBy.Some? ==> row.verifiedBy.value != row.createdBy)
      && (row.rollbackRecord != "" ==> row.state == Rollback)
      && (row.state != Draft ==> exists i :: 0 <= i < |s.db.log| && SimulatedAt(s.db.log, id, i))
  {
    ReachableInv(w, s);
    assert RowInv(w, s.db.scenarios[id]);
    if s.db.scenarios[id].state != Draft {
      SimulationIsLogged(s.db.log, id);
    }
  }

  ghost predicate KeepsTerminal(db: Db, db': Db, id: Id)
    requires id in db.scenarios
  {
    && id in db'.scenarios && db'.scenarios[id].state == db.scenarios[id].state
    && db'.scenarios[id].verifiedBy == db.scenarios[id].verifiedBy
    && db'.scenarios[id].rollbackRecord == db.scenarios[id].rollbackRecord
  }

  lemma TerminalCommit(w: World, db: Db, c: Client, freshId: Id, auditOk: bool, id: Id)
    requires CanCommit(c) && ClientInv(w, db, c) && id in db.scenarios
    requires db.scenarios[id].state in {Verified, Rollback}
    ensures KeepsTerminal(db, Commit(db, c, freshId, auditOk).0, id)
  {
  }

  lemma TerminalStep(w: World, s: State, e: Event, id: Id)
    requires Inv(w, s) && id in s.db.scenarios
    requires s.db.scenarios[id].state in {Verified, Rollback}
    ensures KeepsTerminal(s.db, Step(w, s, e).db, id)
  {
    if e.Commits? && e.client in s.clients && CanCommit(s.clients[e.client]) {
      TerminalCommit(w, s.db, s.clients[e.client], e.freshId, e.auditOk, id);
    }
  }

  /** Verified and rollback are never left, and the verifier and the comment on record never change. */
  lemma {:induction false} TerminalStatesStay(w: World, s: State, events: seq<Event>, id: Id)
    requires Inv(w, s) && id in s.db.scenarios
    requires s.db.scenarios[id].state in {Verified, Rollback}
    ensures KeepsTerminal(s.db, Run(w, s, events).db, id)
  {
    if events != [] {
      var n := |events| - 1;
      TerminalStatesStay(w, s, events[..n], id);
      RunKeepsInv(w, s, events[..n]);
      TerminalStep(w, Run(w, s, events[..n]), events[n], id);
    }
  }

  /** The log names the creator of each scenario and the verifier of each verified one. */
  ghost predicate ActorsLogged(db: Db) {
    && (forall i :: 0 <= i < |db.log| && db.log[i].kind == ScenarioKind ==>
          db.log[i].id in db.scenarios && ActorMatches(db.log[i], db.scenarios[db.log[i].id]))
    && (forall id :: id in db.scenarios ==>
          && IsLogged(db.log, id, Creating, Draft)
          && (db.scenarios[id].state == Verified ==> IsLogged(db.log, id, Moving, Verified)))
  }

  ghost predicate Logs(entry: AuditRow, id: Id, action: Action, after: ScenarioState) {
    entry.kind == ScenarioKind && entry.id == id && entry.action == action
    && entry.after == InScenario(after)
  }

  ghost predicate ActorMatches(entry: AuditRow, row: Scenario) {
    && (entry.action == Creating ==> entry.actor == row.createdBy)
    && (entry.action == Moving && entry.after == InScenario(Verified) ==>
          row.verifiedBy == Some(entry.actor))
  }

  /** What one commit does to the actors on record. */
  ghost predicate KeepsActors(db: Db, db': Db) {
    && db'.log != [] && db'.log == db.log + [db'.log[|db'.log| - 1]]
    && var entry := db'.log[|db'.log| - 1];
    && (entry.kind == ScenarioKind ==>
          entry.id in db'.scenarios && ActorMatches(entry, db'.scenarios[entry.id]))
    && (forall id :: id in db.scenarios ==>
          && id in db'.scenarios && db'.scenarios[id].createdBy == db.scenarios[id].createdBy
          && (db.scenarios[id].verifiedBy.Some? ==>
                db'.scenarios[id].verifiedBy == db.scenarios[id].verifiedBy))
    && (forall id :: id in db'.scenarios && id !in db.scenarios ==> Logs(entry, id, Creating, Draft))
    && (forall id :: id in db'.scenarios && db'.scenarios[id].state == Verified ==>
          Logs(entry, id, Moving, Verified)
          || (id in db.scenarios && db.scenarios[id].state == Verified))
  }

  ghost predicate VerifiersMatchStates(db: Db) {
    forall id :: id in db.scenarios ==>
      (db.scenarios[id].verifiedBy.Some? <==> db.scenarios[id].state == Verified)
  }

  lemma CommitKeepsActors(w: World, db: Db, c: Client, freshId: Id, auditOk: bool)
    requires VerifiersMatchStates(db) && CanCommit(c) && ClientInv(w, db, c)
    requires Commit(db, c, freshId, auditOk).0 != db
    ensures KeepsActors(db, Commit(db, c, freshId, auditOk).0)
  {
  }

  ghost predicate IsLogged(log: seq<AuditRow>, id: Id, action: Action, after: ScenarioState) {
    exists i :: 0 <= i < |log| && Logs(log[i], id, action, after)
  }

  lemma LogsPersist(log: seq<AuditRow>, entry: AuditRow, id: Id, action: Action, after: ScenarioState)
    ensures IsLogged(log + [entry], id, action, after) <==>
      IsLogged(log, id, action, after) || Logs(entry, id, action, after)
  {
    var more := log + [entry];
    assert more[|log|] == entry;
    if i :| 0 <= i < |log| && Logs(log[i], id, action, after) {
      assert Logs(more[i], id, action, after);
    }
  }

  lemma ActorsStayLogged(db: Db, db': Db)
    requires ActorsLogged(db) && KeepsActors(db, db')
    ensures ActorsLogged(db')
  {
    var entry := db'.log[|db'.log| - 1];
    forall id | id in db'.scenarios
      ensures IsLogged(db'.log, id, Creating, Draft)
      ensures db'.scenarios[id].state == Verified ==> IsLogged(db'.log, id, Moving, Verified)
    {
      LogsPersist(db.log, entry, id, Creating, Draft);
      LogsPersist(db.log, entry, id, Moving, Verified);
    }
    assert forall i :: 0 <= i < |db.log| ==> db'.log[i] == db.log[i];
  }

  /**
   Every scenario's creation, and the verification of every verified one, is logged, and each such
   row carries the recorded creator or verifier as its actor.
   */
  lemma {:induction false} ActorsAreLogged(w: World, events: seq<Event>)
    ensures ActorsLogged(Run(w, INITIAL, events).db)
  {
    if events != [] {
      var n := |events| - 1;
      var s, e := Run(w, INITIAL, events[..n]), events[n];
      ActorsAreLogged(w, events[..n]);
      InitialInv(w);
      RunKeepsInv(w, INITIAL, events[..n]);
      if Step(w, s, e).db != s.db {
        assert forall id :: id in s.db.scenarios ==> RowInv(w, s.db.scenarios[id]);
        CommitKeepsActors(w, s.db, s.clients[e.client], e.freshId, e.auditOk);
        ActorsStayLogged(s.db, Step(w, s, e).db);
      }
    }
  }

  // --- Certificate chains ---

  lemma {:induction false} TrailNeverImported(log: seq<AuditRow>, id: Id)
    ensures Follow(log, ChainKind, id) != At(InChain(Imported))
  {
    if log != [] {
      TrailNeverImported(log[..|log| - 1], id);
    }
  }

  /** Chains enter the store validated and never come to the imported state. */
  lemma ChainsAreNeverImported(w: World, s: State, id: Id)
    requires Reachable(w, s) && id in s.db.chains
    ensures s.db.chains[id] != Imported
  {
    AuditTrailsJoin(w, s, ChainKind, id);
    TrailNeverImported(s.db.log, id);
  }

  lemma RevokedCommit(w: World, db: Db, c: Client, freshId: Id, auditOk: bool, id: Id)
    requires CanCommit(c) && ClientInv(w, db, c) && id in db.chains && db.chains[id] == Revoked
    ensures var db' := Commit(db, c, freshId, auditOk).0;
      id in db'.chains && db'.chains[id] == Revoked
  {
  }

  /** A revoked chain stays revoked, whatever was decided about it before. */
  lemma {:induction false} RevokedChainsStay(w: World, s: State, events: seq<Event>, id: Id)
    requires Inv(w, s) && id in s.db.chains && s.db.chains[id] == Revoked
    ensures var db' := Run(w, s, events).db;
      id in db'.chains && db'.chains[id] == Revoked
  {
    if events != [] {
      var n := |events| - 1;
      var before, e := Run(w, s, events[..n]), events[n];
      RevokedChainsStay(w, s, events[..n], id);
      RunKeepsInv(w, s, events[..n]);
      if e.Commits? && e.client in before.clients && CanCommit(before.clients[e.client]) {
        RevokedCommit(w, before.db, before.clients[e.client], e.freshId, e.auditOk, id);
      }
    }
  }

  // --- Idempotency ---

  /** Keys are unique over all scenarios, so at most one has never been simulated. */
  lemma KeysAreUnique(w: World, s: State, i: Id, j: Id)
    requires Reachable(w, s) && i in s.db.scenarios && j in s.db.scenarios
    requires s.db.scenarios[i].key == s.db.scenarios[j].key
    ensures i == j
  {
    ReachableInv(w, s);
  }

  /** A scenario holds the empty key exactly while it has never been simulated. */
  lemma EmptyKeyMeansNeverSimulated(w: World, s: State, id: Id)
    requires Reachable(w, s) && id in s.db.scenarios
    ensures s.db.scenarios[id].key == "" <==>
      forall i :: 0 <= i < |s.db.log| ==> !LogsSimulation(s.db.log[i], id)
  {
    var events :| Run(w, INITIAL, events) == s;
    KeyTracksLog(w, events);
    assert KeysTrackLog(s.db);
    assert (exists i :: 0 <= i < |s.db.log| && LogsSimulation(s.db.log[i], id)) <==>
      s.db.scenarios[id].key != "";
  }

  /**
   A decided creation is stored exactly when no stored row has the same input and no stored scenario
   waits for its first simulation: a waiting one holds the empty key, which the new row needs too.
   */
  lemma CreationExact(w: World, s: State, k: nat, freshId: Id)
    requires Reachable(w, s) && k in s.clients && s.clients[k].CreateReady?
    requires freshId !in s.db.scenarios
    ensures var s' := Step(w, s, Commits(k, freshId, true));
      && (AnsweredWith(s', k, Done(freshId)) <==> forall id :: id in s.db.scenarios ==>
            && WasSimulated(s.db.log, id)
            && var row, draft := s.db.scenarios[id], s.clients[k].draft;
               row.inputHash != draft.inputHash || row.version != draft.version
               || row.input.config.simulationTime != draft.input.config.simulationTime)
      && (!AnsweredWith(s', k, Done(freshId)) ==>
            AnsweredWith(s', k, Refused(Duplicate)) && s'.db == s.db)
  {
    ReachableInv(w, s);
    assert ClientInv(w, s.db, s.clients[k]);
    forall id | id in s.db.scenarios
      ensures s.db.scenarios[id].key == "" <==> !WasSimulated(s.db.log, id)
    {
      EmptyKeyMeansNeverSimulated(w, s, id);
    }
  }

  ghost predicate WasSimulated(log: seq<AuditRow>, id: Id) {
    exists i :: 0 <= i < |log| && LogsSimulation(log[i], id)
  }

  ghost predicate LogsSimulation(row: AuditRow, id: Id) {
    row.kind == ScenarioKind && row.id == id && row.action == Simulating
  }

  ghost predicate KeysTrackLog(db: Db) {
    && (forall id :: id in db.scenarios ==>
          (db.scenarios[id].key != "" <==>
             exists i :: 0 <= i < |db.log| && LogsSimulation(db.log[i], id)))
    && (forall i :: 0 <= i < |db.log| && db.log[i].kind == ScenarioKind ==>
          db.log[i].id in db.scenarios)
  }

  lemma {:induction false} KeyTracksLog(w: World, events: seq<Event>)
    ensures KeysTrackLog(Run(w, INITIAL, events).db)
  {
    if events != [] {
      var n := |events| - 1;
      KeyTracksLog(w, events[..n]);
      InitialInv(w);
      RunKeepsInv(w, INITIAL, events[..n]);
      StepTracksLog(w, Run(w, INITIAL, events[..n]), events[n]);
    }
  }

  lemma CommitSetsKey(w: World, db: Db, c: Client, freshId: Id, auditOk: bool)
    requires CanCommit(c) && ClientInv(w, db, c)
    requires Commit(db, c, freshId, auditOk).0 != db
    ensures var db' := Commit(db, c, freshId, auditOk).0;
      && |db'.log| == |db.log| + 1 && db'.log == db.log + [db'.log[|db.log|]]
      && (db'.log[|db.log|].kind == ScenarioKind ==> db'.log[|db.log|].id in db'.scenarios)
      && (forall id :: id in db.scenarios ==> id in db'.scenarios)
      && (forall id :: id in db'.scenarios ==>
            (db'.scenarios[id].key != "" <==>
              LogsSimulation(db'.log[|db.log|], id)
              || (id in db.scenarios && db.scenarios[id].key != "")))
  {
  }

  lemma StepTracksLog(w: World, s: State, e: Event)
    requires Inv(w, s) && KeysTrackLog(s.db)
    ensures KeysTrackLog(Step(w, s, e).db)
  {
    var db, db' := s.db, Step(w, s, e).db;
    if db' != db {
      CommitSetsKey(w, db, s.clients[e.client], e.freshId, e.auditOk);
      var entry := db'.log[|db.log|];
      forall id | id in db'.scenarios
        ensures db'.scenarios[id].key != "" <==>
          exists i :: 0 <= i < |db'.log| && LogsSimulation(db'.log[i], id)
      {
        LogGrows(db.log, entry, id);
      }
    }
  }

  lemma LogGrows(log: seq<AuditRow>, entry: AuditRow, id: Id)
    ensures (exists i :: 0 <= i < |log + [entry]| && LogsSimulation((log + [entry])[i], id)) <==>
      (exists i :: 0 <= i < |log| && LogsSimulation(log[i], id)) || LogsSimulation(entry, id)
  {
    var more := log + [entry];
    if LogsSimulation(entry, id) {
      assert LogsSimulation(more[|log|], id);
    }
    if i :| 0 <= i < |log| && LogsSimulation(log[i], id) {
      assert LogsSimulation(more[i], id);
    }
  }

  /**
   A reused answer is the current row of the requested scenario, with the simulation of its input as
   the stored result, and the step writes nothing.
   */
  lemma ReusedAnswerIsFaithful(w: World, s: State, k: nat)
    requires Reachable(w, s) && k in s.clients && s.clients[k].SimulateRead?
    ensures var s', c := Step(w, s, LooksUp(k)), s.clients[k];
      && s'.db == s.db
      && (KeyHeldBy(s.db, c.key, c.id) <==> s'.clients[k].Answered? && s'.clients[k].response.Reused?)
      && (KeyHeldBy(s.db, c.key, c.id) ==>
            && s'.clients[k] == Answered(Reused(c.id, s.db.scenarios[c.id]))
            && s.db.scenarios[c.id].result == w.simulate(c.row.input))
  {
    ReachableInv(w, s);
    assert ClientInv(w, s.db, s.clients[k]);
    assert RowInv(w, s.db.scenarios[s.clients[k].id]);
  }

  /** Once a scenario has been simulated its stored result never changes again. */
  lemma ResultsNeverChange(w: World, s: State, events: seq<Event>, id: Id)
    requires Reachable(w, s) && id in s.db.scenarios && s.db.scenarios[id].key != ""
    ensures var db' := Run(w, s, events).db;
      id in db'.scenarios && db'.scenarios[id].result == s.db.scenarios[id].result
  {
    ReachableInv(w, s);
    RunKeepsInv(w, s, events);
    assert RowInv(w, s.db.scenarios[id]);
    assert RowInv(w, Run(w, s, events).db.scenarios[id]);
  }

  // --- How long a key stays bound ---

  /** The log only grows, and a key changes only together with a logged simulation of its row. */
  ghost predicate KeysFollowLog(db: Db, db': Db) {
    && db.log <= db'.log
    && forall id :: id in db.scenarios ==>
         id in db'.scenarios
         && (db'.scenarios[id].key == db.scenarios[id].key || SimulatedSince(db, db', id))
  }

  ghost predicate SimulatedSince(db: Db, db': Db, id: Id) {
    exists i :: |db.log| <= i < |db'.log| && LogsSimulation(db'.log[i], id)
  }

  lemma CommitFollowsLog(w: World, db: Db, c: Client, freshId: Id, auditOk: bool)
    requires CanCommit(c) && ClientInv(w, db, c)
    ensures KeysFollowLog(db, Commit(db, c, freshId, auditOk).0)
  {
    var db' := Commit(db, c, freshId, auditOk).0;
    if c.SimulateReady? && db' != db {
      assert LogsSimulation(db'.log[|db.log|], c.id);
    }
  }

  lemma KeysFollowLogOn(db: Db, mid: Db, db': Db)
    requires KeysFollowLog(db, mid) && KeysFollowLog(mid, db')
    ensures KeysFollowLog(db, db')
  {
    forall id | id in db.scenarios
      ensures db'.scenarios[id].key == db.scenarios[id].key || SimulatedSince(db, db', id)
    {
      if i :| |db.log| <= i < |mid.log| && LogsSimulation(mid.log[i], id) {
        assert LogsSimulation(db'.log[i], id);
      }
    }
  }

  /** A scenario keeps its key over any run in which no further simulation of it is logged. */
  lemma {:induction false} KeyStaysBound(w: World, s: State, events: seq<Event>)
    requires Inv(w, s)
    ensures KeysFollowLog(s.db, Run(w, s, events).db)
  {
    if events != [] {
      var n := |events| - 1;
      var mid, e := Run(w, s, events[..n]), events[n];
      KeyStaysBound(w, s, events[..n]);
      RunKeepsInv(w, s, events[..n]);
      if e.Commits? && e.client in mid.clients && CanCommit(mid.clients[e.client]) {
        CommitFollowsLog(w, mid.db, mid.clients[e.client], e.freshId, e.auditOk);
        KeysFollowLogOn(s.db, mid.db, Step(w, mid, e).db);
      }
    }
  }

  function Ask(w: World, s: State, k: nat, id: Id, key: string, actor: Actor): State {
    Step(w, Step(w, s, Begins(k, SimulateScenario(id, key, actor))), LooksUp(k))
  }

  lemma AskWhileBound(w: World, s: State, k: nat, id: Id, key: string, actor: Actor)
    requires KeyHeldBy(s.db, key, id) && MayManage(actor, s.db.scenarios[id])
    requires 0 < |key| <= MAX_KEY
    ensures var asked := Ask(w, s, k, id, key, actor);
      asked.db == s.db && AnsweredWith(asked, k, Reused(id, s.db.scenarios[id]))
  {
  }

  /** The state right after client k's commit. */
  function AfterCommit(w: World, s: State, k: nat): State {
    Step(w, s, Commits(k, 0, true))
  }

  lemma SimulationBinds(db: Db, c: Client)
    requires c.SimulateReady? && CommitSimulate(db, c, true).1 == Done(c.id)
    ensures var db' := CommitSimulate(db, c, true).0;
      && c.id in db.scenarios && KeyHeldBy(db', c.key, c.id)
      && SameFrozen(db.scenarios[c.id], db'.scenarios[c.id])
      && db'.scenarios[c.id].result == c.result
  {
  }

  /**
   After a simulation has succeeded under a key, and whatever other requests run meanwhile, repeating
   the key returns the stored row with the result of the first call, unless another simulation of
   the scenario has been logged since.
   */
  lemma RepeatedKeyReturnsFirstResult(w: World, s: State, k: nat, events: seq<Event>, j: nat,
                                      actor: Actor)
    requires Reachable(w, s) && k in s.clients && s.clients[k].SimulateReady?
    requires AnsweredWith(AfterCommit(w, s, k), k, Done(s.clients[k].id))
    requires MayManage(actor, s.clients[k].row)
    requires var first := AfterCommit(w, s, k);
      !SimulatedSince(first.db, Run(w, first, events).db, s.clients[k].id)
    ensures var c, later := s.clients[k], Run(w, AfterCommit(w, s, k), events);
      var repeated := Ask(w, later, j, c.id, c.key, actor);
      && KeyHeldBy(later.db, c.key, c.id) && later.db.scenarios[c.id].result == c.result
      && repeated.db == later.db
      && AnsweredWith(repeated, j, Reused(c.id, later.db.scenarios[c.id]))
  {
    var first, c := AfterCommit(w, s, k), s.clients[k];
    ReachableInv(w, s);
    assert ClientInv(w, s.db, c);
    SimulationBinds(s.db, c);
    StepKeepsInv(w, s, Commits(k, 0, true));
    KeyStaysBound(w, first, events);
    RunKeepsInv(w, first, events);
    var later := Run(w, first, events);
    assert RowInv(w, first.db.scenarios[c.id]) && RowInv(w, later.db.scenarios[c.id]);
    AskWhileBound(w, later, j, c.id, c.key, actor);
  }

  function StoredKey(db: Db, id: Id): string {
    if id in db.scenarios then db.scenarios[id].key else ""
  }

  /** Step e commits a simulation of the scenario. */
  predicate CommitsSimulation(w: World, s: State, e: Event, id: Id) {
    && e.Commits? && e.client in s.clients && s.clients[e.client].SimulateReady?
    && s.clients[e.client].id == id && AnsweredWith(Step(w, s, e), e.client, Done(id))
  }

  /** The key under which the run last simulated the scenario, or the one it started with. */
  function LastKey(w: World, s: State, events: seq<Event>, id: Id): string {
    if events == [] then StoredKey(s.db, id)
    else
      var n := |events| - 1;
      var mid := Run(w, s, events[..n]);
      if CommitsSimulation(w, mid, events[n], id) then mid.clients[events[n].client].key
      else LastKey(w, s, events[..n], id)
  }

  lemma CommitSimulateSetsKey(db: Db, c: Client, auditOk: bool, id: Id)
    requires c.SimulateReady? && c.id in db.scenarios
    ensures var (db', response) := CommitSimulate(db, c, auditOk);
      StoredKey(db', id) == if c.id == id && response == Done(id) then c.key else StoredKey(db, id)
  {
  }

  lemma OtherCommitKeepsKey(w: World, db: Db, c: Client, freshId: Id, auditOk: bool, id: Id)
    requires CanCommit(c) && !c.SimulateReady? && ClientInv(w, db, c)
    ensures StoredKey(Commit(db, c, freshId, auditOk).0, id) == StoredKey(db, id)
  {
  }

  lemma StepSetsKey(w: World, s: State, e: Event, id: Id)
    requires Inv(w, s)
    ensures StoredKey(Step(w, s, e).db, id)
         == if CommitsSimulation(w, s, e, id) then s.clients[e.client].key else StoredKey(s.db, id)
  {
    if e.Commits? && e.client in s.clients && CanCommit(s.clients[e.client]) {
      var c := s.clients[e.client];
      assert ClientInv(w, s.db, c);
      if c.SimulateReady? {
        CommitSimulateSetsKey(s.db, c, e.auditOk, id);
      } else {
        OtherCommitKeepsKey(w, s.db, c, e.freshId, e.auditOk, id);
      }
    }
  }

  lemma {:induction false} LastKeyIsStored(w: World, s: State, events: seq<Event>, id: Id)
    requires Inv(w, s)
    ensures StoredKey(Run(w, s, events).db, id) == LastKey(w, s, events, id)
  {
    if events != [] {
      var n := |events| - 1;
      LastKeyIsStored(w, s, events[..n], id);
      RunKeepsInv(w, s, events[..n]);
      StepSetsKey(w, Run(w, s, events[..n]), events[n], id);
    }
  }

  /** The key is judged when it is looked up, by the last simulation that succeeded before. */
  lemma LookupReusesExactly(w: World, s: State, events: seq<Event>, k: nat)
    requires Reachable(w, s)
    requires var late := Run(w, s, events); k in late.clients && late.clients[k].SimulateRead?
    ensures var late := Run(w, s, events);
      var c, looked := late.clients[k], Step(w, late, LooksUp(k)).clients[k];
      && c.id in late.db.scenarios
      && (looked == Answered(Reused(c.id, late.db.scenarios[c.id])) <==> LastKey(w, s, events, c.id) == c.key)
      && (LastKey(w, s, events, c.id) != c.key ==>
            looked.SimulateReady? || (looked.Answered? && looked.response.Refused?))
  {
    ReachableInv(w, s);
    RunKeepsInv(w, s, events);
    var late := Run(w, s, events);
    assert ClientInv(w, late.db, late.clients[k]);
    LastKeyIsStored(w, s, events, late.clients[k].id);
  }

  /** The answer of client k to its simulation request, with other steps before and after its lookup. */
  function Outcome(w: World, s: State, before: seq<Event>, k: nat, after: seq<Event>, auditOk: bool): State
  {
    Step(w, Run(w, Step(w, Run(w, s, before), LooksUp(k)), after), Commits(k, 0, auditOk))
  }

  /**
   However other clients interleave, a simulation request is answered with a stored row exactly when,
   at its lookup, the last simulation of the scenario that had succeeded was made under the same key.
   What commits later changes nothing: a request that has passed the lookup is never given the row.
   */
  lemma RequestReusesExactly(w: World, s: State, before: seq<Event>, k: nat, after: seq<Event>,
                             auditOk: bool)
    requires Reachable(w, s) && k in s.clients && s.clients[k].SimulateRead?
    requires forall i :: 0 <= i < |before| ==> before[i].client != k
    requires forall i :: 0 <= i < |after| ==> after[i].client != k
    ensures var end, c := Outcome(w, s, before, k, after, auditOk), s.clients[k];
      && k in end.clients && end.clients[k].Answered?
      && (end.clients[k].response.Reused? <==> LastKey(w, s, before, c.id) == c.key)
  {
    IdleClientKeepsDecision(w, s, before, k);
    LookupReusesExactly(w, s, before, k);
    IdleClientKeepsDecision(w, Step(w, Run(w, s, before), LooksUp(k)), after, k);
  }

  /** The same for a request whose two reads follow each other, stated for the arguments of the request. */
  lemma RepeatIsReusedExactly(w: World, s: State, events: seq<Event>, k: nat, id: Id, key: string,
                              actor: Actor)
    requires Reachable(w, s) && id in s.db.scenarios && MayManage(actor, s.db.scenarios[id])
    requires 0 < |key| <= MAX_KEY
    ensures var later := Run(w, s, events);
      && id in later.db.scenarios
      && (AnsweredWith(Ask(w, later, k, id, key, actor), k, Reused(id, later.db.scenarios[id]))
          <==> LastKey(w, s, events, id) == key)
  {
    ReachableInv(w, s);
    LastKeyIsStored(w, s, events, id);
    FrozenInputSurvives(w, s, events, id);
  }

  /**
   Two requests under one key that both passed the lookup: once the first has committed, the row holds
   the key, yet the second is refused at every later time at which the scenario is not a draft.
   */
  lemma EarlyRetryIsRefused(w: World, s: State, i: nat, j: nat, events: seq<Event>, auditOk: bool)
    requires Reachable(w, s) && i != j && i in s.clients && j in s.clients
    requires s.clients[i].SimulateReady? && s.clients[j].SimulateReady?
    requires s.clients[j].id == s.clients[i].id && s.clients[j].key == s.clients[i].key
    requires AnsweredWith(AfterCommit(w, s, i), i, Done(s.clients[i].id))
    requires forall n :: 0 <= n < |events| ==> events[n].client != j
    ensures var c, first := s.clients[j], AfterCommit(w, s, i);
      var late := Run(w, first, events);
      && KeyHeldBy(first.db, c.key, c.id) && first.db.scenarios[c.id].state == Simulated
      && (StatusOf(late.db, ScenarioKind, c.id) != InScenario(Draft) ==>
            AnsweredWith(Step(w, late, Commits(j, 0, auditOk)), j, Refused(ChangedConcurrently)))
  {
    var c, first := s.clients[j], AfterCommit(w, s, i);
    StepsReach(w, s, Commits(i, 0, true));
    SimulationBinds(s.db, s.clients[i]);
    DecisionIsSound(w, s, j, c.id, c.row.state);
    assert first.clients[j] == c;
    DelayedCommitExact(w, first, events, j, c.id, Draft, 0, auditOk);
  }

  function Reset(w: World, s: State, k: nat, id: Id, actor: Actor): State {
    Step(w, Step(w, s, Begins(k, TransitionScenario(id, Draft, "", actor))), Commits(k, 0, true))
  }

  lemma ResetReachesDraft(w: World, s: State, k: nat, id: Id, actor: Actor)
    requires id in s.db.scenarios && s.db.scenarios[id].state == Simulated
    requires MayManage(actor, s.db.scenarios[id])
    ensures Reset(w, s, k, id, actor).db.scenarios
         == s.db.scenarios[id := s.db.scenarios[id].(state := Draft)]
  {
  }

  lemma DraftSimulates(w: World, s: State, k: nat, id: Id, key: string, actor: Actor)
    requires id in s.db.scenarios && s.db.scenarios[id].state == Draft
    requires MayManage(actor, s.db.scenarios[id]) && w.accepts(s.db.scenarios[id].input)
    requires 0 < |key| <= MAX_KEY && !KeyTaken(s.db, key, id) && s.db.scenarios[id].key != key
    ensures var s' := Step(w, Ask(w, s, k, id, key, actor), Commits(k, 0, true));
      var row := s.db.scenarios[id];
      && s'.clients[k] == Answered(Done(id))
      && s'.db.scenarios == s.db.scenarios[
           id := row.(state := Simulated, result := w.simulate(row.input), key := key)]
  {
  }

  lemma UnboundKeyIsRefused(w: World, s: State, k: nat, id: Id, key: string, actor: Actor)
    requires id in s.db.scenarios && s.db.scenarios[id].state != Draft
    requires MayManage(actor, s.db.scenarios[id])
    requires 0 < |key| <= MAX_KEY && !KeyTaken(s.db, key, id) && s.db.scenarios[id].key != key
    ensures Ask(w, s, k, id, key, actor).clients[k] == Answered(Refused(OnlyDraftSimulates))
  {
  }

  /** A reset and a new simulation by client i, seen from any other client j. */
  function Resimulated(w: World, s: State, i: nat, id: Id, other: string, actor: Actor): State {
    Step(w, Ask(w, Reset(w, s, i, id, actor), i, id, other, actor), Commits(i, 0, true))
  }

  lemma ResimulationRebinds(w: World, s: State, i: nat, id: Id, other: string, actor: Actor)
    requires id in s.db.scenarios && s.db.scenarios[id].state == Simulated
    requires RowInv(w, s.db.scenarios[id]) && MayManage(actor, s.db.scenarios[id])
    requires 0 < |other| <= MAX_KEY && other != s.db.scenarios[id].key && !KeyTaken(s.db, other, id)
    ensures var again := Resimulated(w, s, i, id, other, actor);
      && AnsweredWith(again, i, Done(id))
      && again.db.scenarios == s.db.scenarios[id := s.db.scenarios[id].(key := other)]
  {
    ResetReachesDraft(w, s, i, id, actor);
    var reset := Reset(w, s, i, id, actor);
    assert !KeyTaken(reset.db, other, id);
    DraftSimulates(w, reset, i, id, other, actor);
  }

  lemma ResimulationLeavesOthers(w: World, s: State, i: nat, id: Id, other: string, actor: Actor,
                                 j: nat)
    requires j != i && j in s.clients
    ensures var again := Resimulated(w, s, i, id, other, actor);
      j in again.clients && again.clients[j] == s.clients[j]
  {
  }

  /**
   The documented promise that a repeated key returns the stored result fails after a second
   simulation: a reset to draft and a simulation under another key unbind the first one.
   */
  lemma RebindingForgetsKey(w: World, s: State, k: nat, id: Id, other: string, actor: Actor)
    requires Reachable(w, s) && id in s.db.scenarios && s.db.scenarios[id].state == Simulated
    requires MayManage(actor, s.db.scenarios[id])
    requires 0 < |other| <= MAX_KEY && other != s.db.scenarios[id].key
    requires !KeyTaken(s.db, other, id)
    ensures var again := Resimulated(w, s, k, id, other, actor);
      && AnsweredWith(again, k, Done(id))
      && AnsweredWith(Ask(w, again, k, id, s.db.scenarios[id].key, actor), k,
                      Refused(OnlyDraftSimulates))
  {
    ReachableInv(w, s);
    assert RowInv(w, s.db.scenarios[id]);
    var first := s.db.scenarios[id].key;
    ResimulationRebinds(w, s, k, id, other, actor);
    var again := Resimulated(w, s, k, id, other, actor);
    assert !KeyTaken(again.db, first, id);
    UnboundKeyIsRefused(w, again, k, id, first, actor);
  }

  /**
   The compare-and-set compares the state alone. A decision that waits while another client resets
   the scenario and simulates it under another key still commits.
   */
  lemma ReturnedStateLetsStaleDecisionCommit(w: World, s: State, i: nat, j: nat, id: Id,
                                             other: string)
    requires Reachable(w, s) && i != j && j in s.clients
    requires s.clients[j].TransitionReady? && Decided(s.clients[j], id, Simulated)
    requires id in s.db.scenarios && s.db.scenarios[id] == s.clients[j].row
    requires MayManage(s.clients[j].actor, s.clients[j].row)
    requires 0 < |other| <= MAX_KEY && other != s.clients[j].row.key && !KeyTaken(s.db, other, id)
    ensures var again := Resimulated(w, s, i, id, other, s.clients[j].actor);
      && AnsweredWith(again, i, Done(id))
      && KeyHeldBy(again.db, other, id)
      && AnsweredWith(Step(w, again, Commits(j, 0, true)), j, Done(id))
  {
    ReachableInv(w, s);
    assert ClientInv(w, s.db, s.clients[j]);
    ResimulationRebinds(w, s, i, id, other, s.clients[j].actor);
    ResimulationLeavesOthers(w, s, i, id, other, s.clients[j].actor, j);
    DecidedCommit(Resimulated(w, s, i, id, other, s.clients[j].actor).db, s.clients[j], id,
                  Simulated, 0, true);
  }

  // --- The protocol with the simulator of this project ---

  ghost predicate Freezable(input: Snapshot) {
    Accepts(input) && StrictlySortedBy(input.services, ServiceKey)
  }

  ghost function Real(hash: Snapshot -> Digest): World {
    World(hash, input => Freezable(input), input => Simulation(input))
  }

  /** Every stored result is the simulation of an accepted, canonical input. */
  lemma StoredResultsAreReal(hash: Snapshot -> Digest, s: State, id: Id)
    requires Reachable(Real(hash), s) && id in s.db.scenarios
    ensures var row := s.db.scenarios[id];
      && Accepts(row.input) && row.inputHash == hash(row.input)
      && (row.state != Draft || row.replayVerified ==> row.result == Simulation(row.input))
  {
    ReachableInv(Real(hash), s);
    assert RowInv(Real(hash), s.db.scenarios[id]);
  }
}
