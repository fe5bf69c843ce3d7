/**
 The rules of the scenario and chain life cycles, stated with literal states, roles and fields: which
 request is admitted, what its commit writes, and in which order a scenario visits its states.
 */
module ScenarioRules {
  import opened Access
  import opened Lifecycle
  import opened Outcomes
  import opened ScenarioLaws
  import opened ScenarioProtocol
  import opened ScenarioRuns
  import opened Simulator
  import opened Snapshots

  // --- The edges ---

  /** The moves of a scenario by request; the seventh edge, from draft to simulated, is a simulation. */
  ghost predicate Moves(from: ScenarioState, to: ScenarioState) {
    || (from == Simulated && to == Ready)
    || (from == Simulated && to == Draft)
    || (from == Ready && to == Executing)
    || (from == Ready && to == Draft)
    || (from == Executing && to == Verified)
    || (from == Executing && to == Rollback)
  }

  ghost predicate ChainMoves(from: ChainState, to: ChainState) {
    || (from == Validated && to == Deprecated)
    || (from == Validated && to == Revoked)
    || (from == Deprecated && to == Revoked)
  }

  // --- Which requests are admitted ---

  /** An administrator, an operator or the creator. */
  ghost predicate Manages(actor: Actor, row: Scenario) {
    match actor.role
    case Admin => true
    case PkiOperator => true
    case _ => actor.userId == row.createdBy
  }

  /** A transition is admitted iff it is one of the six moves and the caller may make it. */
  lemma TransitionAdmitted(w: World, db: Db, id: Id, to: ScenarioState, comment: string, actor: Actor)
    ensures var c := Begin(w, db, TransitionScenario(id, to, comment, actor));
      if id in db.scenarios && Moves(db.scenarios[id].state, to)
         && (if to == Verified then db.scenarios[id].createdBy != actor.userId
             else Manages(actor, db.scenarios[id]))
      then c == TransitionReady(id, to, comment, actor, db.scenarios[id])
      else c.Answered? && c.response.Refused? && match c.response.error
        case InvalidTarget => to == Simulated
        case NotFound => to != Simulated && id !in db.scenarios
        case Forbidden =>
          to != Simulated && to != Verified && id in db.scenarios && !Manages(actor, db.scenarios[id])
        case IllegalTransition =>
          && to != Simulated && id in db.scenarios && !Moves(db.scenarios[id].state, to)
          && (to == Verified || Manages(actor, db.scenarios[id]))
        case ReviewerConflict =>
          to == Verified && id in db.scenarios && db.scenarios[id].state == Executing
          && db.scenarios[id].createdBy == actor.userId
        case _ => false
  {
  }

  /** The reads of a simulation, the key lookup included, when nothing happens between them. */
  lemma SimulationAdmitted(w: World, db: Db, id: Id, key: string, actor: Actor)
    ensures var c := Begin(w, db, SimulateScenario(id, key, actor));
      if 0 < |key| <= 128 && id in db.scenarios && Manages(actor, db.scenarios[id])
      then c == SimulateRead(id, key, actor, db.scenarios[id])
      else c.Answered? && c.response.Refused? && match c.response.error
        case KeyRequired => key == ""
        case KeyTooLong => |key| > 128
        case NotFound => 0 < |key| <= 128 && id !in db.scenarios
        case Forbidden => 0 < |key| <= 128 && id in db.scenarios && !Manages(actor, db.scenarios[id])
        case _ => false
  {
  }

  /** What the key lookup may answer, in terms of the rows that hold the key. */
  ghost predicate LookedUp(w: World, db: Db, c: Client, looked: Client)
    requires c.SimulateRead?
  {
    && c.id in db.scenarios
    && match looked
       case SimulateReady(id, key, actor, row, result) =>
         && id == c.id && key == c.key && actor == c.actor && row == c.row
         && row.state == Draft && result == w.simulate(row.input)
         && forall j :: j in db.scenarios ==> db.scenarios[j].key != c.key
       case Answered(Reused(id, row)) =>
         id == c.id && row == db.scenarios[c.id] && row.key == c.key
       case Answered(Refused(KeyBoundElsewhere)) =>
         && db.scenarios[c.id].key != c.key
         && exists j :: j in db.scenarios && db.scenarios[j].key == c.key
       case Answered(Refused(OnlyDraftSimulates)) =>
         c.row.state != Draft && forall j :: j in db.scenarios ==> db.scenarios[j].key != c.key
       case _ => false
  }

  lemma LookupOnRows(w: World, db: Db, c: Client)
    requires c.SimulateRead? && ClientInv(w, db, c) && RowInv(w, db.scenarios[c.id])
    ensures LookedUp(w, db, c, Lookup(w, db, c))
  {
  }

  lemma LookupAnswers(w: World, s: State, k: nat)
    requires Reachable(w, s) && k in s.clients && s.clients[k].SimulateRead?
    ensures LookedUp(w, s.db, s.clients[k], Step(w, s, LooksUp(k)).clients[k])
  {
    ReachableInv(w, s);
    assert ClientInv(w, s.db, s.clients[k]);
    assert RowInv(w, s.db.scenarios[s.clients[k].id]);
    LookupOnRows(w, s.db, s.clients[k]);
  }

  /** A replay is admitted iff the caller manages the scenario and it is no draft; it then matches. */
  lemma ReplayAdmitted(w: World, s: State, id: Id, actor: Actor)
    requires Reachable(w, s)
    ensures var c := Begin(w, s.db, ReplayScenario(id, actor));
      if id in s.db.scenarios && Manages(actor, s.db.scenarios[id]) && s.db.scenarios[id].state != Draft
      then c == ReplayReady(id, actor, s.db.scenarios[id], true)
      else c.Answered? && c.response.Refused? && match c.response.error
        case NotFound => id !in s.db.scenarios
        case Forbidden => id in s.db.scenarios && !Manages(actor, s.db.scenarios[id])
        case NoStoredResult => id in s.db.scenarios && s.db.scenarios[id].state == Draft
        case _ => false
  {
    ReachableInv(w, s);
    BeginReplayKeepsInv(w, s.db, id, actor);
    if id in s.db.scenarios {
      assert RowInv(w, s.db.scenarios[id]);
    }
  }

  lemma ChainMoveAdmitted(w: World, s: State, id: Id, to: ChainState, actor: Actor)
    requires Reachable(w, s)
    ensures var c := Begin(w, s.db, TransitionChain(id, to, actor));
      if id in s.db.chains && ChainMoves(s.db.chains[id], to)
      then c == ChainReady(id, to, actor, s.db.chains[id])
      else if id in s.db.chains then c == Answered(Refused(IllegalTransition))
      else c == Answered(Refused(NotFound))
  {
    if id in s.db.chains {
      ChainsAreNeverImported(w, s, id);
    }
  }

  // --- What is written, and by whom ---

  /** An audit row with literal edges: six moves, the simulation, the two beginnings, and replays. */
  ghost predicate Literal(r: AuditRow) {
    match r.action
    case Creating => r.kind == ScenarioKind && r.before == Absent && r.after == InScenario(Draft)
    case Importing => r.kind == ChainKind && r.before == Absent && r.after == InChain(Validated)
    case Simulating =>
      r.kind == ScenarioKind && r.before == InScenario(Draft) && r.after == InScenario(Simulated)
    case Replaying =>
      r.kind == ScenarioKind && r.before.InScenario? && r.after == r.before && r.after != InScenario(Draft)
    case Moving =>
      if r.kind == ScenarioKind then
        r.before.InScenario? && r.after.InScenario? && Moves(r.before.scenario, r.after.scenario)
      else r.before.InChain? && r.after.InChain? && ChainMoves(r.before.chain, r.after.chain)
  }

  ghost predicate NoneImported(db: Db) {
    forall id :: id in db.chains ==> db.chains[id] != Imported
  }

  lemma CommitIsLiteral(w: World, db: Db, c: Client, freshId: Id, auditOk: bool)
    requires CanCommit(c) && ClientInv(w, db, c) && NoneImported(db)
    requires Commit(db, c, freshId, auditOk).0 != db
    ensures var db' := Commit(db, c, freshId, auditOk).0;
      && |db'.log| == |db.log| + 1 && db'.log[..|db.log|] == db.log
      && Literal(db'.log[|db.log|]) && db'.log[|db.log|].actor == c.actor.userId
  {
  }

  lemma NothingIsImported(w: World, s: State)
    requires Reachable(w, s)
    ensures NoneImported(s.db)
  {
    forall id | id in s.db.chains ensures s.db.chains[id] != Imported {
      ChainsAreNeverImported(w, s, id);
    }
  }

  /** A step that writes appends one row, along a literal edge, in the name of the committing client. */
  lemma WritesAreLiteral(w: World, s: State, e: Event)
    requires Reachable(w, s) && Step(w, s, e).db != s.db
    ensures var log, log' := s.db.log, Step(w, s, e).db.log;
      && e.Commits? && e.client in s.clients && CanCommit(s.clients[e.client])
      && |log'| == |log| + 1 && log'[..|log|] == log
      && Literal(log'[|log|]) && log'[|log|].actor == s.clients[e.client].actor.userId
  {
    ReachableInv(w, s);
    NothingIsImported(w, s);
    assert ClientInv(w, s.db, s.clients[e.client]);
    CommitIsLiteral(w, s.db, s.clients[e.client], e.freshId, e.auditOk);
  }

  lemma {:induction false} RunIsLiteral(w: World, events: seq<Event>)
    ensures forall i :: 0 <= i < |Run(w, INITIAL, events).db.log| ==> Literal(Run(w, INITIAL, events).db.log[i])
  {
    if events != [] {
      var n := |events| - 1;
      RunIsLiteral(w, events[..n]);
      var s := Run(w, INITIAL, events[..n]);
      if Step(w, s, events[n]).db != s.db {
        WritesAreLiteral(w, s, events[n]);
        assert forall i :: 0 <= i < |s.db.log| ==> Step(w, s, events[n]).db.log[..|s.db.log|][i] == s.db.log[i];
      }
    }
  }

  lemma LogIsLiteral(w: World, s: State)
    requires Reachable(w, s)
    ensures AllLiteral(s.db.log)
  {
    var events :| Run(w, INITIAL, events) == s;
    RunIsLiteral(w, events);
  }

  ghost predicate Goes(from: ScenarioState, to: ScenarioState) {
    to == from || (from == Draft && to == Simulated) || Moves(from, to)
  }

  ghost predicate ChainGoes(from: ChainState, to: ChainState) {
    to == from || ChainMoves(from, to)
  }

  /** A step takes a scenario along one of seven edges and a chain along one of three. */
  lemma StatesChangeLiterally(w: World, s: State, e: Event, id: Id)
    requires Reachable(w, s)
    ensures var db, db' := s.db, Step(w, s, e).db;
      && (id in db.scenarios ==> id in db'.scenarios && Goes(db.scenarios[id].state, db'.scenarios[id].state))
      && (id in db'.scenarios && id !in db.scenarios ==> db'.scenarios[id].state == Draft)
      && (id in db.chains ==> id in db'.chains && ChainGoes(db.chains[id], db'.chains[id]))
      && (id in db'.chains && id !in db.chains ==> db'.chains[id] == Validated)
  {
    if Step(w, s, e).db != s.db {
      EveryWriteIsAudited(w, s, e);
      WritesAreLiteral(w, s, e);
      var entry :| Logged(s.db, Step(w, s, e).db, entry) && OthersUntouched(s.db, Step(w, s, e).db, entry);
      assert Step(w, s, e).db.log[|s.db.log|] == entry;
      assert StatusOf(Step(w, s, e).db, ScenarioKind, id) == StatusOf(Step(w, s, e).db, ScenarioKind, id);
      assert StatusOf(Step(w, s, e).db, ChainKind, id) == StatusOf(Step(w, s, e).db, ChainKind, id);
    }
  }

  // --- The history of a finished scenario ---

  ghost predicate RowOf(r: AuditRow, id: Id) {
    r.kind == ScenarioKind && r.id == id
  }

  /** Row i takes the scenario to the state, and later rows about it are replays. */
  ghost predicate Enters(log: seq<AuditRow>, id: Id, i: nat, state: ScenarioState) {
    && i < |log| && RowOf(log[i], id) && log[i].action != Replaying && log[i].after == InScenario(state)
    && forall j :: i < j < |log| && RowOf(log[j], id) ==> log[j].action == Replaying
  }

  lemma {:induction false} LastEntry(log: seq<AuditRow>, id: Id, state: ScenarioState) returns (i: nat)
    requires Follow(log, ScenarioKind, id) == At(InScenario(state))
    ensures Enters(log, id, i, state)
    ensures Follow(log[..i], ScenarioKind, id) == At(log[i].before)
  {
    var n := |log| - 1;
    if RowOf(log[n], id) && log[n].action != Replaying {
      i := n;
    } else {
      i := LastEntry(log[..n], id, state);
      assert log[..n][..i] == log[..i];
    }
  }

  ghost predicate Is(r: AuditRow, id: Id, action: Action, before: ScenarioState, after: ScenarioState) {
    RowOf(r, id) && r.action == action && r.before == InScenario(before) && r.after == InScenario(after)
  }

  /** Simulated, made ready, executed and finished, in this order, with nothing but replays besides. */
  ghost predicate Finishes(log: seq<AuditRow>, id: Id, a: nat, b: nat, c: nat, d: nat,
                           last: ScenarioState)
  {
    && a < b < c < d < |log|
    && Is(log[a], id, Simulating, Draft, Simulated)
    && Is(log[b], id, Moving, Simulated, Ready)
    && Is(log[c], id, Moving, Ready, Executing)
    && Is(log[d], id, Moving, Executing, last)
    && forall j :: a <= j < |log| && RowOf(log[j], id) ==>
         log[j].after != InScenario(Draft) && (j == a || j == b || j == c || j == d || log[j].action == Replaying)
  }

  /** Entries found one before the other leave only replays between them. */
  lemma EntriesJoin(log: seq<AuditRow>, id: Id, c: nat, before: ScenarioState, d: nat, after: ScenarioState)
    requires Enters(log, id, d, after) && Enters(log[..d], id, c, before)
    ensures forall j :: c <= j < |log| && RowOf(log[j], id) ==>
      j == c || j == d || log[j].action == Replaying
  {
    forall j | c < j < d && RowOf(log[j], id) ensures log[j].action == Replaying {
      assert log[..d][j] == log[j];
    }
  }

  ghost predicate AllLiteral(log: seq<AuditRow>) {
    forall i :: 0 <= i < |log| ==> Literal(log[i])
  }

  /** In a literal log, a scenario in executing has entered simulated, ready and executing in turn. */
  lemma ExecutionHistory(log: seq<AuditRow>, id: Id) returns (a: nat, b: nat, c: nat)
    requires AllLiteral(log) && Follow(log, ScenarioKind, id) == At(InScenario(Executing))
    ensures a < b < c && Enters(log, id, c, Executing) && Enters(log[..c], id, b, Ready)
    ensures Enters(log[..b], id, a, Simulated)
    ensures Is(log[a], id, Simulating, Draft, Simulated) && Is(log[b], id, Moving, Simulated, Ready)
    ensures Is(log[c], id, Moving, Ready, Executing)
  {
    c := LastEntry(log, id, Executing);
    assert Literal(log[c]);
    b := LastEntry(log[..c], id, Ready);
    assert log[..c][..b] == log[..b] && Literal(log[b]);
    a := LastEntry(log[..b], id, Simulated);
    assert Literal(log[a]);
  }

  /**
   A verified or rolled back scenario was simulated, made ready and executed since it last was a draft,
   in this order, and its last move led from executing to its state.
   */
  lemma FinishedHistory(w: World, s: State, id: Id)
    requires Reachable(w, s) && id in s.db.scenarios
    requires s.db.scenarios[id].state in {Verified, Rollback}
    ensures exists a, b, c, d :: Finishes(s.db.log, id, a, b, c, d, s.db.scenarios[id].state)
  {
    LogIsLiteral(w, s);
    AuditTrailsJoin(w, s, ScenarioKind, id);
    FinishedLog(s.db.log, id, s.db.scenarios[id].state);
  }

  lemma FinishedLog(log: seq<AuditRow>, id: Id, last: ScenarioState)
    requires AllLiteral(log) && last in {Verified, Rollback}
    requires Follow(log, ScenarioKind, id) == At(InScenario(last))
    ensures exists a, b, c, d :: Finishes(log, id, a, b, c, d, last)
  {
    var d := LastEntry(log, id, last);
    assert Literal(log[d]);
    var a, b, c := ExecutionHistory(log[..d], id);
    assert log[..d][..c] == log[..c] && log[..d][..b] == log[..b] && log[..c][..b] == log[..b];
    EntriesJoin(log, id, c, Executing, d, last);
    EntriesJoin(log[..d], id, b, Ready, c, Executing);
    EntriesJoin(log[..c], id, a, Simulated, b, Ready);
    forall j | a <= j < |log| && RowOf(log[j], id)
      ensures j == a || j == b || j == c || j == d || log[j].action == Replaying
    {
      assert j < d ==> log[..d][j] == log[j];
      assert j < c ==> log[..c][j] == log[j];
    }
    assert forall j :: a <= j < |log| && RowOf(log[j], id) ==> Literal(log[j]);
    assert Finishes(log, id, a, b, c, d, last);
  }

  // --- Who may write ---

  /** The decision was made by a caller who may make it. */
  ghost predicate Authorised(c: Client) {
    match c
    case SimulateRead(_, _, actor, row) => Manages(actor, row)
    case SimulateReady(_, _, actor, row, _) => Manages(actor, row)
    case ReplayReady(_, actor, row, _) => Manages(actor, row)
    case TransitionReady(_, to, _, actor, row) =>
      if to == Verified then actor.userId != row.createdBy else Manages(actor, row)
    case _ => true
  }

  lemma {:induction false} DecisionsAreAuthorised(w: World, events: seq<Event>, k: nat)
    requires k in Run(w, INITIAL, events).clients
    ensures Authorised(Run(w, INITIAL, events).clients[k])
  {
    if events != [] {
      var n := |events| - 1;
      var s := Run(w, INITIAL, events[..n]);
      if k in s.clients {
        DecisionsAreAuthorised(w, events[..n], k);
      }
      if events[n].Begins? && events[n].client == k {
        BeginIsAuthorised(w, s.db, events[n].request);
      }
    }
  }

  lemma BeginIsAuthorised(w: World, db: Db, request: Request)
    ensures Authorised(Begin(w, db, request))
  {
  }

  /** What changed a stored row was an authorised decision on that row. */
  ghost predicate ChangedByRight(row: Scenario, row': Scenario, actor: Actor) {
    if row'.state == Verified && row.state != Verified then actor.userId != row.createdBy
    else Manages(actor, row)
  }

  lemma CommitIsAuthorised(w: World, db: Db, c: Client, freshId: Id, auditOk: bool, id: Id)
    requires CanCommit(c) && ClientInv(w, db, c) && Authorised(c) && id in db.scenarios
    ensures var db' := Commit(db, c, freshId, auditOk).0;
      && id in db'.scenarios
      && (db'.scenarios[id] != db.scenarios[id] ==>
            ChangedByRight(db.scenarios[id], db'.scenarios[id], c.actor))
  {
  }

  /**
   A stored scenario is only changed by an administrator, an operator or its creator, except that it is
   verified by anyone but its creator.
   */
  lemma WritersAreAuthorised(w: World, s: State, e: Event, id: Id)
    requires Reachable(w, s) && id in s.db.scenarios
    ensures var db' := Step(w, s, e).db;
      && id in db'.scenarios
      && (db'.scenarios[id] != s.db.scenarios[id] ==>
            && e.Commits? && e.client in s.clients && CanCommit(s.clients[e.client])
            && ChangedByRight(s.db.scenarios[id], db'.scenarios[id], s.clients[e.client].actor))
  {
    if e.Commits? && e.client in s.clients && CanCommit(s.clients[e.client]) {
      var c := s.clients[e.client];
      DecisionIsConsistent(w, s, e.client);
      var events :| Run(w, INITIAL, events) == s;
      DecisionsAreAuthorised(w, events, e.client);
      CommitIsAuthorised(w, s.db, c, e.freshId, e.auditOk, id);
    }
  }

  lemma DecisionIsConsistent(w: World, s: State, k: nat)
    requires Reachable(w, s) && k in s.clients
    ensures ClientInv(w, s.db, s.clients[k])
  {
    ReachableInv(w, s);
  }

  // --- What a commit stores, field by field ---

  lemma MoveStores(w: World, s: State, k: nat, auditOk: bool)
    requires k in s.clients && s.clients[k].TransitionReady?
    requires AnsweredWith(Step(w, s, Commits(k, 0, auditOk)), k, Done(s.clients[k].id))
    ensures var c, db' := s.clients[k], Step(w, s, Commits(k, 0, auditOk)).db;
      && c.id in s.db.scenarios && c.id in db'.scenarios && auditOk
      && var row, row' := s.db.scenarios[c.id], db'.scenarios[c.id];
      && row.state == c.row.state && row'.state == c.to && SameFrozen(row, row')
      && row'.result == row.result && row'.key == row.key && row'.replayVerified == row.replayVerified
      && (if c.to == Verified then row'.verifiedBy == Some(c.actor.userId) else row'.verifiedBy == row.verifiedBy)
      && (if c.to == Rollback then row'.rollbackRecord == c.comment
          else row'.rollbackRecord == row.rollbackRecord)
  {
  }

  /** The verifier, or the comment of the rollback, stays on record in every continuation. */
  lemma EndIsKept(w: World, s: State, k: nat, events: seq<Event>)
    requires Reachable(w, s) && k in s.clients && s.clients[k].TransitionReady?
    requires AnsweredWith(AfterCommit(w, s, k), k, Done(s.clients[k].id))
    requires s.clients[k].to in {Verified, Rollback}
    ensures var c, db' := s.clients[k], Run(w, AfterCommit(w, s, k), events).db;
      && c.id in db'.scenarios && db'.scenarios[c.id].state == c.to
      && (c.to == Verified ==> db'.scenarios[c.id].verifiedBy == Some(c.actor.userId))
      && (c.to == Rollback ==> db'.scenarios[c.id].rollbackRecord == c.comment)
  {
    MoveStores(w, s, k, true);
    StepsReach(w, s, Commits(k, 0, true));
    ReachableInv(w, AfterCommit(w, s, k));
    TerminalStatesStay(w, AfterCommit(w, s, k), events, s.clients[k].id);
  }

  lemma SimulationStores(w: World, s: State, k: nat, auditOk: bool)
    requires Reachable(w, s) && k in s.clients && s.clients[k].SimulateReady?
    requires AnsweredWith(Step(w, s, Commits(k, 0, auditOk)), k, Done(s.clients[k].id))
    ensures var c, db' := s.clients[k], Step(w, s, Commits(k, 0, auditOk)).db;
      && c.id in s.db.scenarios && c.id in db'.scenarios && auditOk
      && var row, row' := s.db.scenarios[c.id], db'.scenarios[c.id];
      && row.state == Draft && row'.state == Simulated && SameFrozen(row, row')
      && row'.result == w.simulate(row.input) && row'.key == c.key
      && row'.replayVerified == row.replayVerified && row'.verifiedBy == None && row'.rollbackRecord == ""
  {
    ReachableInv(w, s);
    assert ClientInv(w, s.db, s.clients[k]);
    assert RowInv(w, s.db.scenarios[s.clients[k].id]);
  }

  /** The draft of an admitted creation and the row its commit stores. */
  lemma CreationStores(w: World, s: State, k: nat, input: Snapshot, actor: Actor, freshId: Id)
    ensures var draft := Begin(w, s.db, CreateScenario(input, actor));
      if w.accepts(input) then
        && draft.CreateReady? && draft.actor == actor
        && draft.draft == Scenario(input, w.hash(input), "trust-path-window-v1.0.0", actor.userId, Draft,
             SimulationResult([], [], [], AwaitingSimulation), "", None, false, "")
      else draft == Answered(Refused(InvalidInput))
    ensures var s' := Step(w, s, Commits(k, freshId, true));
      (k in s.clients && s.clients[k].CreateReady? && AnsweredWith(s', k, Done(freshId))) ==>
        freshId !in s.db.scenarios && s'.db.scenarios == s.db.scenarios[freshId := s.clients[k].draft]
  {
  }

  /** A decided chain move commits iff the chain is in the state that was read and the audit works. */
  lemma ChainMoveCommits(w: World, s: State, k: nat, auditOk: bool)
    requires k in s.clients && s.clients[k].ChainReady?
    ensures var c, s' := s.clients[k], Step(w, s, Commits(k, 0, auditOk));
      if c.id in s.db.chains && s.db.chains[c.id] == c.fromChain && auditOk then
        AnsweredWith(s', k, Done(c.id)) && s'.db.chains == s.db.chains[c.id := c.toChain]
      else
        && AnsweredWith(s', k, Refused(
             if c.id in s.db.chains && s.db.chains[c.id] == c.fromChain then AuditFailed
             else ChangedConcurrently))
        && s'.db == s.db
  {
  }

  // --- Replays ---

  ghost predicate Replayed(log: seq<AuditRow>, id: Id) {
    exists i :: 0 <= i < |log| && RowOf(log[i], id) && log[i].action == Replaying
  }

  ghost predicate ReplaysMatch(db: Db) {
    && (forall i :: 0 <= i < |db.log| && db.log[i].kind == ScenarioKind ==> db.log[i].id in db.scenarios)
    && forall id :: id in db.scenarios ==> (db.scenarios[id].replayVerified <==> Replayed(db.log, id))
  }

  lemma OneMoreReplayed(log: seq<AuditRow>, entry: AuditRow, id: Id)
    ensures Replayed(log + [entry], id) <==>
      Replayed(log, id) || (RowOf(entry, id) && entry.action == Replaying)
  {
    var more := log + [entry];
    assert more[|log|] == entry;
    if i :| 0 <= i < |log| && RowOf(log[i], id) && log[i].action == Replaying {
      assert RowOf(more[i], id);
    }
  }

  lemma CommitReplays(w: World, db: Db, c: Client, freshId: Id, auditOk: bool)
    requires CanCommit(c) && ClientInv(w, db, c) && Commit(db, c, freshId, auditOk).0 != db
    ensures var db' := Commit(db, c, freshId, auditOk).0;
      && |db'.log| == |db.log| + 1 && db'.log == db.log + [db'.log[|db.log|]]
      && var entry := db'.log[|db.log|];
      && (entry.kind == ScenarioKind ==> entry.id in db'.scenarios)
      && (forall id :: id in db.scenarios ==> id in db'.scenarios)
      && (forall id :: id in db'.scenarios ==>
            (db'.scenarios[id].replayVerified <==>
               (RowOf(entry, id) && entry.action == Replaying)
               || (id in db.scenarios && db.scenarios[id].replayVerified)))
  {
  }

  /** A scenario is marked replay-verified exactly when a replay of it is logged. */
  lemma {:induction false} ReplayVerifiedExact(w: World, events: seq<Event>)
    ensures ReplaysMatch(Run(w, INITIAL, events).db)
  {
    if events != [] {
      var n := |events| - 1;
      var s, e := Run(w, INITIAL, events[..n]), events[n];
      var db' := Step(w, s, e).db;
      ReplayVerifiedExact(w, events[..n]);
      ReachableInv(w, s);
      if db' != s.db {
        CommitReplays(w, s.db, s.clients[e.client], e.freshId, e.auditOk);
        forall id | id in db'.scenarios ensures db'.scenarios[id].replayVerified <==> Replayed(db'.log, id) {
          OneMoreReplayed(s.db.log, db'.log[|s.db.log|], id);
        }
      }
    }
  }

  /** An admitted replay is answered Done exactly when its audit row is appended. */
  lemma ReplayCommits(w: World, s: State, k: nat, auditOk: bool)
    requires Reachable(w, s) && k in s.clients && s.clients[k].ReplayReady?
    ensures var c, s' := s.clients[k], Step(w, s, Commits(k, 0, auditOk));
      if auditOk then
        && AnsweredWith(s', k, Done(c.id)) && c.id in s.db.scenarios
        && s'.db.scenarios == s.db.scenarios[c.id := s.db.scenarios[c.id].(replayVerified := true)]
      else AnsweredWith(s', k, Refused(AuditFailed)) && s'.db == s.db
  {
    ReachableInv(w, s);
    assert ClientInv(w, s.db, s.clients[k]);
  }
}
