/**
 The life cycle of scenarios and chains as a protocol of many clients. A request reads a row and
 decides; later it commits a compare-and-set together with one audit row in one transaction.
 Between the two, any other client may commit.
 */
module ScenarioProtocol {
  import opened Access
  import opened Lifecycle
  import opened Outcomes
  import opened Simulator
  import opened Snapshots

  type Digest = nat

  datatype Scenario = Scenario(
    input: Snapshot, inputHash: Digest, version: string, createdBy: Id,
    state: ScenarioState, result: SimulationResult, key: string,
    verifiedBy: Option<Id>, replayVerified: bool, rollbackRecord: string)

  // --- The audit log ---

  datatype Kind = ScenarioKind | ChainKind
  datatype Status = Absent | InScenario(scenario: ScenarioState) | InChain(chain: ChainState)
  datatype Action = Creating | Importing | Simulating | Moving | Replaying

  datatype AuditRow = AuditRow(
    kind: Kind, id: Id, action: Action, before: Status, after: Status, actor: Id)

  datatype Db = Db(scenarios: map<Id, Scenario>, chains: map<Id, ChainState>, log: seq<AuditRow>)

  function StatusOf(db: Db, kind: Kind, id: Id): Status {
    match kind
    case ScenarioKind => if id in db.scenarios then InScenario(db.scenarios[id].state) else Absent
    case ChainKind => if id in db.chains then InChain(db.chains[id]) else Absent
  }

  // --- Requests and what a client holds between its steps ---

  datatype Request =
    | CreateScenario(input: Snapshot, actor: Actor)
    | SimulateScenario(id: Id, key: string, actor: Actor)
    | TransitionScenario(id: Id, to: ScenarioState, comment: string, actor: Actor)
    | ReplayScenario(id: Id, actor: Actor)
    | ImportChain(actor: Actor)
    | TransitionChain(id: Id, toChain: ChainState, actor: Actor)

  datatype Error =
    | InvalidInput
    | KeyRequired
    | KeyTooLong
    | NotFound
    | Forbidden
    | KeyBoundElsewhere
    | OnlyDraftSimulates
    | SimulationFailed
    | InvalidTarget
    | IllegalTransition
    | ReviewerConflict
    | NoStoredResult
    | ReplayDiffers
    | ChangedConcurrently
    | Duplicate
    | AuditFailed

  datatype Response =
    | Done(id: Id)
    | Reused(id: Id, row: Scenario)
    | Refused(error: Error)

  datatype Client =
    | CreateReady(draft: Scenario, actor: Actor)
    | SimulateRead(id: Id, key: string, actor: Actor, row: Scenario)
    | SimulateReady(id: Id, key: string, actor: Actor, row: Scenario, result: SimulationResult)
    | TransitionReady(id: Id, to: ScenarioState, comment: string, actor: Actor, row: Scenario)
    | ReplayReady(id: Id, actor: Actor, row: Scenario, passed: bool)
    | ImportReady(actor: Actor)
    | ChainReady(id: Id, toChain: ChainState, actor: Actor, fromChain: ChainState)
    | Answered(response: Response)

  const EMPTY_RESULT := SimulationResult([], [], [], AwaitingSimulation)

  const MAX_KEY := 128

  /**
   The foreign parts of a run: the hash of the canonical text, which inputs freezing yields, and
   the simulator. The protocol is proved for any of them and then for the simulator of this project.
   */
  datatype World = World(
    hash: Snapshot -> Digest, accepts: Snapshot -> bool, simulate: Snapshot -> SimulationResult)

  function NewScenario(w: World, input: Snapshot, actor: Actor): Scenario {
    Scenario(input, w.hash(input), VERSION, actor.userId, Draft, EMPTY_RESULT, "", None, false, "")
  }

  predicate MayManage(actor: Actor, row: Scenario) {
    actor.role == Admin || actor.role == PkiOperator || row.createdBy == actor.userId
  }

  function Refuse(error: Error): Client {
    Answered(Refused(error))
  }

  // --- The reading step of each request ---

  function Begin(w: World, db: Db, request: Request): Client {
    match request
    case CreateScenario(input, actor) =>
      if !w.accepts(input) then Refuse(InvalidInput)
      else CreateReady(NewScenario(w, input, actor), actor)
    case SimulateScenario(id, key, actor) => BeginSimulate(db, id, key, actor)
    case TransitionScenario(id, to, comment, actor) => BeginTransition(db, id, to, comment, actor)
    case ReplayScenario(id, actor) => BeginReplay(w, db, id, actor)
    case ImportChain(actor) => ImportReady(actor)
    case TransitionChain(id, to, actor) => BeginChain(db, id, to, actor)
  }

  function BeginSimulate(db: Db, id: Id, key: string, actor: Actor): Client {
    if key == "" then Refuse(KeyRequired)
    else if |key| > MAX_KEY then Refuse(KeyTooLong)
    else if id !in db.scenarios then Refuse(NotFound)
    else if !MayManage(actor, db.scenarios[id]) then Refuse(Forbidden)
    else SimulateRead(id, key, actor, db.scenarios[id])
  }

  function BeginTransition(db: Db, id: Id, to: ScenarioState, comment: string, actor: Actor): Client {
    if to == Simulated then Refuse(InvalidTarget)
    else if id !in db.scenarios then Refuse(NotFound)
    else
      var row := db.scenarios[id];
      if to != Verified && !MayManage(actor, row) then Refuse(Forbidden)
      else if !CanTransitionScenario(row.state, to) then Refuse(IllegalTransition)
      else if to == Verified && row.createdBy == actor.userId then Refuse(ReviewerConflict)
      else TransitionReady(id, to, comment, actor, row)
  }

  function BeginReplay(w: World, db: Db, id: Id, actor: Actor): Client {
    if id !in db.scenarios then Refuse(NotFound)
    else
      var row := db.scenarios[id];
      if !MayManage(actor, row) then Refuse(Forbidden)
      else if row.state == Draft then Refuse(NoStoredResult)
      else if !w.accepts(row.input) then Refuse(SimulationFailed)
      else ReplayReady(id, actor, row, w.simulate(row.input) == row.result)
  }

  function BeginChain(db: Db, id: Id, to: ChainState, actor: Actor): Client {
    if id !in db.chains then Refuse(NotFound)
    else if !CanTransitionChain(db.chains[id], to) then Refuse(IllegalTransition)
    else ChainReady(id, to, actor, db.chains[id])
  }

  predicate KeyHeldBy(db: Db, key: string, id: Id) {
    id in db.scenarios && db.scenarios[id].key == key
  }

  /** The unique index: another row holds the key. */
  predicate KeyTaken(db: Db, key: string, id: Id) {
    exists j :: j in db.scenarios && j != id && db.scenarios[j].key == key
  }

  /** The second reading step of a simulation: the lookup of its idempotency key. */
  function Lookup(w: World, db: Db, c: Client): Client
    requires c.SimulateRead?
  {
    if KeyHeldBy(db, c.key, c.id) then Answered(Reused(c.id, db.scenarios[c.id]))
    else if KeyTaken(db, c.key, c.id) then Refuse(KeyBoundElsewhere)
    else if c.row.state != Draft then Refuse(OnlyDraftSimulates)
    else if !w.accepts(c.row.input) then Refuse(SimulationFailed)
    else SimulateReady(c.id, c.key, c.actor, c.row, w.simulate(c.row.input))
  }

  // --- The committing step: a conditional write and its audit row, or nothing ---

  predicate SameInput(a: Scenario, b: Scenario) {
    a.inputHash == b.inputHash && a.version == b.version
    && a.input.config.simulationTime == b.input.config.simulationTime
  }

  /** The unique indexes a new scenario must respect: its key, still empty, and its input. */
  predicate Collides(db: Db, row: Scenario) {
    exists j :: j in db.scenarios && (db.scenarios[j].key == row.key || SameInput(db.scenarios[j], row))
  }

  function PutScenario(db: Db, id: Id, row: Scenario, entry: AuditRow): Db {
    db.(scenarios := db.scenarios[id := row], log := db.log + [entry])
  }

  function CommitCreate(db: Db, row: Scenario, actor: Actor, freshId: Id, auditOk: bool): (Db, Response)
  {
    if freshId in db.scenarios || Collides(db, row) then (db, Refused(Duplicate))
    else if !auditOk then (db, Refused(AuditFailed))
    else
      (PutScenario(db, freshId, row,
         AuditRow(ScenarioKind, freshId, Creating, Absent, InScenario(row.state), actor.userId)),
       Done(freshId))
  }

  function CommitSimulate(db: Db, c: Client, auditOk: bool): (Db, Response)
    requires c.SimulateReady?
  {
    if c.id !in db.scenarios || db.scenarios[c.id].state != Draft then
      (db, Refused(ChangedConcurrently))
    else if KeyTaken(db, c.key, c.id) then (db, Refused(Duplicate))
    else if !auditOk then (db, Refused(AuditFailed))
    else
      (PutScenario(db, c.id,
         db.scenarios[c.id].(state := Simulated, result := c.result, key := c.key),
         AuditRow(ScenarioKind, c.id, Simulating, InScenario(c.row.state), InScenario(Simulated),
                  c.actor.userId)),
       Done(c.id))
  }

  function Moved(row: Scenario, to: ScenarioState, comment: string, actor: Actor): Scenario {
    row.(state := to,
         verifiedBy := if to == Verified then Some(actor.userId) else row.verifiedBy,
         rollbackRecord := if to == Rollback then comment else row.rollbackRecord)
  }

  function CommitTransition(db: Db, c: Client, auditOk: bool): (Db, Response)
    requires c.TransitionReady?
  {
    if c.id !in db.scenarios || db.scenarios[c.id].state != c.row.state then
      (db, Refused(ChangedConcurrently))
    else if !auditOk then (db, Refused(AuditFailed))
    else
      (PutScenario(db, c.id, Moved(db.scenarios[c.id], c.to, c.comment, c.actor),
         AuditRow(ScenarioKind, c.id, Moving, InScenario(c.row.state), InScenario(c.to),
                  c.actor.userId)),
       Done(c.id))
  }

  function CommitReplay(db: Db, c: Client, auditOk: bool): (Db, Response)
    requires c.ReplayReady?
  {
    if c.id !in db.scenarios then (db, Refused(NotFound))
    else if !auditOk then (db, Refused(AuditFailed))
    else
      (PutScenario(db, c.id, db.scenarios[c.id].(replayVerified := c.passed),
         AuditRow(ScenarioKind, c.id, Replaying, InScenario(c.row.state), InScenario(c.row.state),
                  c.actor.userId)),
       if c.passed then Done(c.id) else Refused(ReplayDiffers))
  }

  function CommitImport(db: Db, actor: Actor, freshId: Id, auditOk: bool): (Db, Response) {
    if freshId in db.chains then (db, Refused(Duplicate))
    else if !auditOk then (db, Refused(AuditFailed))
    else
      (db.(chains := db.chains[freshId := Validated],
           log := db.log
             + [AuditRow(ChainKind, freshId, Importing, Absent, InChain(Validated), actor.userId)]),
       Done(freshId))
  }

  function CommitChain(db: Db, c: Client, auditOk: bool): (Db, Response)
    requires c.ChainReady?
  {
    if c.id !in db.chains || db.chains[c.id] != c.fromChain then (db, Refused(ChangedConcurrently))
    else if !auditOk then (db, Refused(AuditFailed))
    else
      (db.(chains := db.chains[c.id := c.toChain],
           log := db.log
             + [AuditRow(ChainKind, c.id, Moving, InChain(c.fromChain), InChain(c.toChain),
                         c.actor.userId)]),
       Done(c.id))
  }

  predicate CanCommit(c: Client) {
    !c.SimulateRead? && !c.Answered?
  }

  function Commit(db: Db, c: Client, freshId: Id, auditOk: bool): (Db, Response)
    requires CanCommit(c)
  {
    match c
    case CreateReady(row, actor) => CommitCreate(db, row, actor, freshId, auditOk)
    case SimulateReady(_, _, _, _, _) => CommitSimulate(db, c, auditOk)
    case TransitionReady(_, _, _, _, _) => CommitTransition(db, c, auditOk)
    case ReplayReady(_, _, _, _) => CommitReplay(db, c, auditOk)
    case ImportReady(actor) => CommitImport(db, actor, freshId, auditOk)
    case ChainReady(_, _, _, _) => CommitChain(db, c, auditOk)
  }

  // --- Runs: interleaved steps of many clients ---

  datatype State = State(db: Db, clients: map<nat, Client>)

  datatype Event =
    | Begins(client: nat, request: Request)
    | LooksUp(client: nat)
    | Commits(client: nat, freshId: Id, auditOk: bool)

  const INITIAL := State(Db(map[], map[], []), map[])

  function Step(w: World, s: State, e: Event): State {
    match e
    case Begins(k, request) => s.(clients := s.clients[k := Begin(w, s.db, request)])
    case LooksUp(k) =>
      if k in s.clients && s.clients[k].SimulateRead? then
        s.(clients := s.clients[k := Lookup(w, s.db, s.clients[k])])
      else s
    case Commits(k, freshId, auditOk) =>
      if k in s.clients && CanCommit(s.clients[k]) then
        var (db, response) := Commit(s.db, s.clients[k], freshId, auditOk);
        State(db, s.clients[k := Answered(response)])
      else s
  }

  function Run(w: World, s: State, events: seq<Event>): State {
    if events == [] then s
    else
      var n := |events| - 1;
      Step(w, Run(w, s, events[..n]), events[n])
  }
}
