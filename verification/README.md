# CertRollover: a verified model

CertRollover assesses the replacement of a trust anchor. It freezes trust anchors, certificate
chains and dependent services into a snapshot, simulates at a few critical instants which services
can still build a trusted path, and takes each frozen scenario through a reviewed life cycle with
an audit log. This project models that logic in Dafny and proves what it promises.

| file | what it models |
|---|---|
| `outcomes.dfy`, `ordering.dfy` | optional results; sorting (a sorted permutation, without stability) and strictly increasing sequences |
| `snapshots.dfy` | the frozen input and its canonical form |
| `graphs.dfy`, `cycle_check.dfy` | paths, cycles, topological orders; the three-colour depth-first search of the simulator and of the service store |
| `trust_paths.dfy` | critical instants, live anchors, direct reachability of one service |
| `resolution.dfy` | propagation of failures along dependencies and the witness paths it reports |
| `simulator.dfy`, `simulation_laws.dfy` | validation and simulation of a snapshot; its accounting, witnesses, monotonicity and interval laws |
| `trust_reference.dfy` | what a simulation result says, over the frozen rows alone: judged instants, reachability, every field of the evidence |
| `coverage_laws.dfy` | what the sampled instants do and do not say about the time between them |
| `service_registry.dfy`, `registry_laws.dfy`, `service_store.dfy` | the dependent-service table, who may write what, its three writers, and freezing it into a snapshot |
| `lifecycle.dfy`, `scenario_protocol.dfy`, `scenario_runs.dfy`, `scenario_laws.dfy` | the scenario and chain life cycles as interleaved reading and committing steps of many clients |
| `scenario_rules.dfy` | the rules of those life cycles with literal states, roles and fields: admission, order of states, who writes, what is stored |
| `scenario_service.dfy` | the service methods over mutable tables: the imperative layer, each method equal to a step of that protocol and keeping its invariant |
| `scenario_examples.dfy` | concrete reachable runs with the simulator of this project |
| `rate_limiter.dfy`, `redaction.dfy`, `chain_import.dfy`, `access.dfy` | the request limiter, audit redaction, the import validity window, the caller |

How the system's terms are modelled:

- An instant is a whole number of nanoseconds since Go's zero time; the difference of two instants
  saturates at the 64-bit duration range, and halving truncates toward zero.
- Identifiers are natural numbers. Where it matters the database contract (distinct, nonzero primary
  keys below the largest `uint`) is stated: `DistinctBy`, `FreshKey`. A row whose identifier is not
  distinct still has a defined meaning in every table (the later row wins, as in a Go map).
- Reasons and explanations are structured values in place of English sentences; each constructor
  stands for one sentence and carries what that sentence mentions.
- The order in which a Go map yields its keys is an arbitrary choice, so every verdict proved here
  holds for all orders.
- A transaction either commits its write with its audit row or leaves the tables as they were. The
  flag `auditOk` says whether the audit append succeeds; fresh primary keys are parameters.
- A client's request is split where the code starts its transaction: everything before is a reading
  step whose decision is kept, and other clients may commit before it does. The protocol is proved
  for any hash function, any set of frozen inputs and any deterministic simulator (`World`), and then
  for the simulator of this project (`Real`).
- JSON encoding is taken to be deterministic and inverted by decoding, so stored texts are compared
  as the values they encode.

Results that differ from what the repository says of itself:

- README.md:54 promises that a repeated idempotency key returns the stored result. The key is judged
  when it is looked up: however other clients interleave, a request is answered with the stored row
  exactly when, at its lookup, the last simulation of the scenario that had succeeded was made under
  its key (`ScenarioLaws.RequestReusesExactly`). The key stays bound as long as no other simulation of
  the scenario is logged (`ScenarioLaws.RepeatedKeyReturnsFirstResult`). Two kinds of runs break the
  promise. After a reset to draft and a simulation under another key, repeating the first key is
  refused (`ScenarioLaws.RebindingForgetsKey`, `ScenarioExamples.ExampleForgetsKey`). A retry that
  looked up its key before the first request committed is never given the stored row: as long as the
  scenario is not a draft it is refused as a concurrent change, although the row then holds its key
  (`ScenarioLaws.EarlyRetryIsRefused`, `ScenarioExamples.ExampleEarlyRetry`).
- The explanation for a result without failures says that all paths remain reachable before, during
  and after the overlap (backend/internal/algorithm/simulator.go:295). It speaks of the sampled
  instants only: a gap between two chains can lie between two samples
  (`CoverageLaws.AllReachableCanMissAGap`). The explanation is true of the whole span exactly when
  every active service is also reachable at each instant in it at which a chain window or the overlap
  has just ended (`CoverageLaws.AllReachableExact`).
- A refused creation says that an identical frozen scenario already exists
  (backend/internal/service/rollover_scenario_service.go:84). The unique index on the idempotency key
  covers the empty key too (`ScenarioLaws.KeysAreUnique`), so a creation is also refused while any
  scenario waits for its first simulation (`ScenarioLaws.CreationExact`).

Further facts a reader may not expect:

- The compare-and-set of a transition compares the state alone. A decision that waits while other
  clients reset and simulate the scenario again commits, although the row it was taken on has changed
  (`ScenarioLaws.ReturnedStateLetsStaleDecisionCommit`, `ScenarioExamples.ExampleStaleDecision`);
  `ScenarioLaws.DelayedCommitExact` says exactly when a waiting decision commits.
- Only the first 200 listed chains are frozen. A service whose stored chain lies beyond them is
  reported at every instant as having no chain (`ScenarioService.OffPageMeansMissing`).
- The simulation reads no anchor state, window or revocation (`SimulationLaws.AnchorLifecycleIsIgnored`).
- Chains are valid up to but not including their end instant; section 4.1.2.5 of RFC 5280 includes
  it. The model follows the code.

## Model

| member | source | states |
|---|---|---|
| Ordering.SortSlice | backend/internal/algorithm/simulator.go:93-95 | in-place sorting yields a sorted permutation and nothing more (no stability) |
| Ordering.StrictOrderIsUnique | backend/internal/algorithm/simulator.go:93-95 | a strictly sorted list is determined by its members, so sorting rows with distinct ids has one outcome |
| Snapshots.CollectUnique | backend/internal/algorithm/simulator.go:348-359 | the deduplicating loop and sort return the strictly increasing list of the positive members |
| Snapshots.SortedUniqueDetermined | backend/internal/service/common.go:39-50 | identifier lists with the same positive members, in any order and multiplicity, become the same list |
| Snapshots.NewSnapshot | backend/internal/algorithm/simulator.go:91-101 | sorts the three slices in place, normalises each service in place and returns a permutation of its inputs in canonical form |
| Snapshots.FreezingIsCanonical | backend/internal/algorithm/simulator.go:91-101 | inputs that are permutations of each other with distinct ids and the same positive list members freeze to equal snapshots |
| Snapshots.FreezingIsIdempotent | backend/internal/algorithm/simulator.go:91-101 | freezing a frozen snapshot again returns it unchanged |
| CycleCheck.DependencyWalk.Visit | backend/internal/algorithm/simulator.go:325-340 | the recursive visit terminates; without a fault the node is finished after all it reaches, and a fault it reports is real |
| CycleCheck.CheckGraph | backend/internal/service/common.go:71-95 | for every iteration order: no fault iff the graph is acyclic and, for the strict check, every edge target exists; a reported id lies on a cycle or is a missing target |
| Graphs.PathsDescend | backend/internal/algorithm/simulator.go:318-347 | along a finishing order every non-empty path leads strictly backwards, which is why finishing all nodes excludes cycles |
| Simulator.DetectCycle | backend/internal/algorithm/simulator.go:318-347 | nil iff no service reaches itself, dangling targets allowed; the named id lies on a cycle |
| Simulator.ValidateSnapshot | backend/internal/algorithm/simulator.go:119-150 | accepts exactly the well-configured acyclic snapshots; otherwise the error names the first failing check and, for candidates, the first missing one |
| TrustPaths.Compact | backend/internal/algorithm/simulator.go:273-279 | compacting into the front of the same array never overwrites an unread element and keeps exactly the distinct instants, strictly increasing |
| TrustPaths.SampleTimes | backend/internal/algorithm/simulator.go:270-280 | sorting and compacting in place returns the strictly increasing sequence of exactly the six judged instants, written out with literals |
| TrustPaths.CriticalTimesAreOrdered | backend/internal/algorithm/simulator.go:270-280 | on a non-empty overlap: four to six instants, the midpoint in [start, end) even when the duration saturates |
| TrustPaths.JudgedExact | backend/internal/algorithm/simulator.go:270-280 | an instant is sampled iff it is one minute before the overlap, its start, its middle (rounded down; the duration cut at 2^63 - 1 ns), its end, one minute after it, or the simulation time |
| TrustPaths.EveryRegimeIsSampled | backend/internal/algorithm/simulator.go:270-292 | instants before, within and after the overlap are all sampled, with the old, both and the new anchor live |
| TrustPaths.ActiveAnchors | backend/internal/algorithm/simulator.go:281-292 | the old anchor is live up to the overlap end, the new one from its start on, nothing else is |
| TrustPaths.MapKeys | backend/internal/algorithm/simulator.go:368-375 | the ascending key list, whatever order the map yields |
| TrustPaths.Refusal | backend/internal/algorithm/simulator.go:214-233 | no refusal iff all five checks pass; otherwise it names the first failing check and the right chain, or service and anchor |
| TrustPaths.EvaluateDirect | backend/internal/algorithm/simulator.go:201-240 | the loop with its refusals equals the recursive scan that DirectExact characterises |
| TrustPaths.DirectExact | backend/internal/algorithm/simulator.go:201-240 | reachable iff a same-leaf chain among own and candidate ids passes every check; then the least such id with its own anchor, live and trusted, under the service's id and code; otherwise both selected ids are 0 and there is one refusal per same-leaf chain in ascending order, and the empty list only for chain id zero |
| TrustPaths.DirectIgnoresCandidateOrder | backend/internal/algorithm/simulator.go:206-207 | order, repetition and zeros among the candidates change nothing |
| TrustPaths.UsabilityIsAnInterval | backend/internal/algorithm/simulator.go:214-233 | the instants at which a chain passes all checks form an interval, across the overlap boundaries |
| Resolution.Resolver.ResolveService | backend/internal/algorithm/simulator.go:242-268 | terminates on every graph, restores the visiting set, and returns the specified verdict and path |
| Resolution.ResolveExact | backend/internal/algorithm/simulator.go:242-268 | reachable iff everything in the reflexive-transitive dependency closure is active and directly reachable and the closure has no cycle |
| Resolution.FailureHasWitness | backend/internal/algorithm/simulator.go:242-268 | for any graph and visiting set, the returned path is a real path of good services up to the failing one, and the nested reason is the fold of that path |
| Resolution.AcyclicWitness | backend/internal/algorithm/simulator.go:242-268 | on acyclic graphs the path has no repeats, ends at a service failing by itself, and each step takes the first dependency whose closure fails |
| Resolution.CycleBranchNeverTaken | backend/internal/algorithm/simulator.go:248-252 | on acyclic graphs no reason ends in the cycle branch |
| Resolution.BlameIsCompositional | backend/internal/algorithm/simulator.go:242-268 | on acyclic graphs a service that only a dependency breaks keeps its own evidence and takes over code, reason and broken path of its first unreachable dependency |
| Simulator.EvaluateAll | backend/internal/algorithm/simulator.go:168-176 | the table of direct evidence holds the active services |
| Simulator.ResolveAllServices | backend/internal/algorithm/simulator.go:177-193 | one item per active service, and a matching affected row and broken path per failure |
| Simulator.ExplainResult | backend/internal/algorithm/simulator.go:293-314 | the counting loop decides the warnings by the existence of early and late failures |
| Simulator.Simulate | backend/internal/algorithm/simulator.go:152-199 | succeeds exactly on accepted snapshots; the result is the specified one, with evidence items sorted, and equal to it outright when services are in ascending order |
| SimulationLaws.AccountingIsComplete | backend/internal/algorithm/simulator.go:165-198 | one evidence entry per instant in order, one item per active service, and affected rows and broken paths that pair up and list exactly the unreachable items in order |
| SimulationLaws.LastChainWins | backend/internal/algorithm/simulator.go:158-163 | of several frozen rows with one id the last one is used |
| SimulationLaws.AffectedExact | backend/internal/algorithm/simulator.go:177-193 | a service is reported affected at an instant iff the instant is sampled, the service is active, and it does not resolve then |
| TrustReference.ReportExact | backend/internal/algorithm/simulator.go:152-199 | a service is reported at an instant iff the instant is one of the six, the service is active and unreachable then; in particular at the simulation time |
| TrustReference.ReachableExact | backend/internal/algorithm/simulator.go:201-292 | with literal conditions on rows: reachable iff everything the service depends on is active and has a same-leaf chain, own or candidate, neither deprecated nor revoked, in its window, validated, from a live anchor that the service trusts |
| TrustReference.ItemExact | backend/internal/algorithm/simulator.go:201-268 | every field of the item of an active service: id and code, verdict, least usable chain and its anchor or zeros, and the reason, which for a broken dependency carries the code and reason of the first unreachable one |
| TrustReference.EvidenceExact | backend/internal/algorithm/simulator.go:165-198 | the entries are the judged instants in ascending order, each with the live anchors in ascending order and exactly one item, as above, per active service |
| SimulationLaws.ExplanationExact | backend/internal/algorithm/simulator.go:293-314 | all-reachable iff nothing fails; the early and late warnings iff something fails strictly before or after the overlap; both counts equal the number of unreachable items |
| SimulationLaws.BrokenPathsAreWitnesses | backend/internal/algorithm/simulator.go:181-192 | every broken path of an accepted snapshot spells out, code by code, a witness for the affected service on the same row, with the reason told along it |
| SimulationLaws.SampledEvidenceCoversInterval | backend/internal/algorithm/simulator.go:201-268 | reachable at two instants with the same chains selected throughout the closure, hence at every instant between |
| SimulationLaws.AllReachableCoversInterval | backend/internal/algorithm/simulator.go:293-296 | when nothing fails, an active service is also reachable between any two samples at which its closure selects the same chains |
| CoverageLaws.IntervalExact | backend/internal/algorithm/simulator.go:270-292 | reachable at every instant of an interval iff at its start and at each later instant at which a chain window or the overlap has just ended |
| CoverageLaws.AllReachableExact | backend/internal/algorithm/simulator.go:293-296 | for a result explained as all reachable: every active service is reachable from one minute before the overlap to one minute after it iff it is at every instant of that span at which a chain window or the overlap has just ended |
| CoverageLaws.AllReachableCanMissAGap | backend/internal/algorithm/simulator.go:293-296 | a concrete accepted snapshot is explained as reachable throughout although its service fails in the middle of the overlap |
| SimulationLaws.RelaxingNeverAddsFailures | backend/internal/algorithm/simulator.go:152-240 | extra trusted anchors, extra existing candidates and wider chain windows keep the snapshot accepted and never add an affected pair |
| SimulationLaws.DependenciesNeverRemoveFailures | backend/internal/algorithm/simulator.go:242-268 | extra dependencies of a snapshot that stays accepted never remove an affected pair |
| SimulationLaws.AnchorLifecycleIsIgnored | backend/internal/algorithm/simulator.go:130-136 | replacing the frozen anchors by any others with the same ids changes neither acceptance nor result |
| SimulationLaws.MissingChainExact | backend/internal/algorithm/simulator.go:202-205 | an active service is reported as having no chain of its own iff that chain is not frozen; everything that depends on it is then unreachable |
| ServiceStore.ServicesContainCycle | backend/internal/service/common.go:59-95 | nil iff the decoded dependency graph is closed and acyclic |
| ServiceStore.DependentServiceStore.ValidateReferences | backend/internal/service/dependent_service_service.go:38-69 | nil iff the chain, every trusted anchor and every dependency exist and the service does not name itself; otherwise the error names the first fault, of the dependencies the least one |
| ServiceStore.DependentServiceStore.CheckUpdate | backend/internal/service/dependent_service_service.go:125-157 | the checks of an update pass iff it is accepted, and a refusal names the first check that fails |
| ServiceStore.DependentServiceStore.CreateService | backend/internal/service/dependent_service_service.go:70-103 | succeeds exactly when authorised, referenced, unused code and audited; writes one row with the requested fields and one audit entry or nothing; a refusal names the first failing check and is never a cycle |
| ServiceStore.DependentServiceStore.UpdateService | backend/internal/service/dependent_service_service.go:125-178 | succeeds exactly when accepted; the row then has the requested fields and its old code and state, and nothing else changes; a refusal names the first failing check, and a refusal for a cycle means there is one |
| ServiceStore.DependentServiceStore.DeactivateService | backend/internal/service/dependent_service_service.go:179-206 | turns an active row inactive, every other field kept, with its audit entry, or changes nothing and names the first failing check |
| ServiceRegistry.CheckTransfers | backend/internal/service/dependent_service_service.go:84-95 | a graph that passes with the new service under the sentinel id passes with it under any unused id |
| ServiceRegistry.CreateCheckPasses | backend/internal/service/dependent_service_service.go:84-89 | on a sound table with checked references the cycle check of Create cannot fail |
| ServiceRegistry.ReferencesKeepClosed | backend/internal/service/dependent_service_service.go:147-157 | an update with checked references keeps the graph closed, so only a cycle can refuse it |
| ServiceRegistry.SerialRunsKeepGraph | backend/internal/service/dependent_service_service.go:70-206 | every serial run of create, update and deactivate keeps the graph closed and acyclic, ids in range and codes unique, whatever chains and anchors exist at each write |
| ServiceRegistry.AcceptedWrites | backend/internal/service/dependent_service_service.go:70-206 | field by field, what an accepted create, update or deactivate leaves in its row, and that no other row changes |
| RegistryLaws.CreateAcceptedExact | backend/internal/service/dependent_service_service.go:29-103 | on a sound table a creation is accepted iff the caller is an administrator, an operator or a service owner of the team, everything referenced is stored, the code is new and the audit works |
| RegistryLaws.NewEdgesExact | backend/internal/service/dependent_service_service.go:147-157 | replacing the edges of one node of an acyclic graph closes a cycle iff one of the new edges leads back to it along old edges |
| RegistryLaws.UpdateAcceptedExact | backend/internal/service/dependent_service_service.go:125-178 | on a sound table an update is accepted iff the caller commands the stored team and, as a service owner, keeps it, everything referenced is stored, no requested dependency leads back to the service, and the audit works |
| RegistryLaws.DeactivateAcceptedExact | backend/internal/service/dependent_service_service.go:179-206 | a deactivation is accepted iff the caller commands the team, the row is active and the audit works |
| RegistryLaws.WrittenServiceIsFrozen | backend/internal/service/common.go:124-135 | a snapshot frozen after an accepted write holds the one service of that id with the requested chain, trust, edges and criticality, or, after a deactivation, no active one |
| RegistryLaws.InactiveRowsFail | backend/internal/algorithm/simulator.go:168-176 | in a snapshot frozen from the table an inactive row is never reported, and whatever depends on it is unreachable at every instant |
| ServiceRegistry.FrozenGraphMatches | backend/internal/service/common.go:124-135 | the graph the simulator checks is the graph of the frozen rows |
| ServiceRegistry.BuildSnapshot | backend/internal/service/common.go:111-141 | for any table: succeeds iff the configuration is well formed, its anchors and candidates are among the frozen rows and the stored graph is acyclic; the accepted snapshot holds the given configuration, anchors and chains and, for every stored row and no other, one service with its code, chain, criticality, state and the positive members of its lists; it fails with a cycle only when everything else is well formed |
| ScenarioRuns.RunKeepsInv | backend/internal/service/rollover_scenario_service.go:39-259 | every interleaving of reads and commits keeps rows, keys, audit trails and pending decisions consistent |
| ScenarioRuns.CommitIsLawful | backend/internal/repository/trust_anchor_repository.go:21-30 | each transaction commits a consistent database or the old one, and undoes no decision taken earlier by others |
| ScenarioLaws.AuditTrailsJoin | backend/internal/service/rollover_scenario_service.go:131-147 | per scenario and chain, the state-changing audit rows join end to end over allowed edges from creation to the stored state |
| ScenarioLaws.EveryWriteIsAudited | backend/internal/service/rollover_scenario_service.go:203-221 | a step writes nothing, or one entity along an allowed edge with exactly one audit row saying so; all other rows are untouched |
| ScenarioRules.WritesAreLiteral | backend/internal/constants/scenario_state.go:18-31 | a step that writes appends one audit row in the name of the committing actor, and the row leads along one of the literal edges of scenarios and chains |
| ScenarioRules.StatesChangeLiterally | backend/internal/constants/scenario_state.go:18-31 | every step takes a stored scenario along one of seven literal edges and a chain along one of three, or leaves it where it is |
| ScenarioRules.FinishedHistory | README.md:70 | a verified or rolled back scenario was simulated, made ready, executed and finished in this order since it last was a draft, with nothing but replays logged besides |
| ScenarioRules.TransitionAdmitted | backend/internal/service/rollover_scenario_service.go:175-194 | a transition is admitted iff it is one of six literal moves by a manager of the scenario or, to verified, by anyone but its creator; otherwise the error is that of the first failing check |
| ScenarioRules.SimulationAdmitted | backend/internal/service/rollover_scenario_service.go:90-104 | a simulation request is admitted iff its key has 1 to 128 bytes and the caller manages the stored scenario; otherwise the error is that of the first failing check |
| ScenarioRules.LookupAnswers | backend/internal/service/rollover_scenario_service.go:105-115 | the lookup reuses the row that holds the key, refuses a key another row holds, refuses a row that was read outside draft, or goes on to simulate when no row holds the key |
| ScenarioRules.ReplayAdmitted | backend/internal/service/rollover_scenario_service.go:227-247 | a replay is admitted iff the caller manages the scenario and it is no draft, and it then matches |
| ScenarioRules.ChainMoveAdmitted | backend/internal/constants/certificate_state.go:40-52 | a chain transition is admitted iff it leads from validated to deprecated or revoked or from deprecated to revoked |
| ScenarioRules.WritersAreAuthorised | backend/internal/service/rollover_scenario_service.go:90-259 | in any run a stored scenario is changed only by an administrator, an operator or its creator, except that it is verified by anyone but its creator |
| ScenarioRules.CreationStores | backend/internal/service/rollover_scenario_service.go:73-80 | every field of the draft of an admitted creation, and that its commit stores it |
| ScenarioRules.SimulationStores | backend/internal/service/rollover_scenario_service.go:129-147 | every field of a row after its simulation |
| ScenarioRules.MoveStores | backend/internal/service/rollover_scenario_service.go:195-221 | every field of a row after a transition: the verifier when verified, the comment when rolled back, all else kept |
| ScenarioRules.EndIsKept | backend/internal/service/rollover_scenario_service.go:195-221 | the verifier, or the comment of the rollback, stays on record in every continuation |
| ScenarioRules.ReplayVerifiedExact | backend/internal/service/rollover_scenario_service.go:247-259 | over every run a scenario is marked replay-verified iff a replay of it is logged |
| ScenarioRules.ReplayCommits | backend/internal/service/rollover_scenario_service.go:250-259 | an admitted replay is answered with success and marks its scenario iff its audit row is appended |
| ScenarioRules.ChainMoveCommits | backend/internal/service/certificate_chain_service.go:127-138 | a decided chain move is stored iff the chain is in the state that was read and the audit works; otherwise nothing is written |
| ScenarioLaws.DelayedCommitExact | backend/internal/repository/rollover_scenario_repository.go:77-97 | after any run in which its client does nothing, a waiting decision commits iff the scenario is in the state that was read, no other row took its key and the audit append succeeds; otherwise nothing is written |
| ScenarioLaws.SecondCommitLoses | backend/internal/repository/rollover_scenario_repository.go:77-97 | of two clients that decided on the same state, the second is refused and writes nothing when it commits right after the first |
| ScenarioLaws.ReturnedStateLetsStaleDecisionCommit | backend/internal/repository/rollover_scenario_repository.go:86-97 | a decision on a simulated scenario still commits after another client has reset it and simulated it under another key |
| ScenarioExamples.ExampleStaleDecision | backend/internal/repository/rollover_scenario_repository.go:86-97 | a concrete run from the empty tables in which a decision taken before a reset and a second simulation commits after them |
| ScenarioLaws.FrozenInputSurvives | backend/internal/service/rollover_scenario_service.go:64-75 | frozen input, hash, version and creator never change after creation, and the hash is that of the input |
| ScenarioLaws.StoredResultIsSimulation | backend/internal/service/rollover_scenario_service.go:116-147 | every scenario past draft or verified by replay stores exactly the simulation of its frozen input |
| ScenarioLaws.StoredResultsAreReal | backend/internal/service/rollover_scenario_service.go:64-75 | the same with the simulator of this project: the input is accepted and the stored result is its simulation |
| ScenarioLaws.SimulationsAndReplaysSucceed | backend/internal/service/rollover_scenario_service.go:235-257 | no draft fails the validation of its simulation and no replay differs, with resets and re-simulations interleaved |
| ScenarioLaws.VerificationIsIndependent | backend/internal/service/rollover_scenario_service.go:189-199 | a verifier is recorded iff the state is verified, never the creator; a rollback comment only in rollback; a simulation is logged after the last visit to draft |
| ScenarioLaws.ActorsAreLogged | backend/internal/service/common.go:51-57 | every creation and every verification is logged with the recorded creator or verifier as its actor |
| ScenarioLaws.TerminalStatesStay | backend/internal/constants/scenario_state.go:18-31 | verified and rollback are never left; the verifier and the rollback comment on record stay |
| ScenarioLaws.ChainsAreNeverImported | backend/internal/constants/certificate_state.go:40-52 | a stored chain is never in the imported state |
| ScenarioLaws.RevokedChainsStay | backend/internal/service/certificate_chain_service.go:123-138 | a revoked chain stays revoked in every continuation |
| ScenarioLaws.KeysAreUnique | backend/internal/model/rollover_scenario.go:28 | no two scenarios ever hold the same key, the empty one included, even when simulations race |
| ScenarioLaws.EmptyKeyMeansNeverSimulated | backend/internal/model/rollover_scenario.go:28 | a scenario holds the empty key exactly while the log shows no simulation of it |
| ScenarioLaws.CreationExact | backend/internal/service/rollover_scenario_service.go:76-88 | in any reachable state, a decided creation with an unused id and a working audit is stored iff every stored scenario has a logged simulation and differs in input hash, version or simulation time; otherwise it is refused as a duplicate and nothing is written |
| ScenarioLaws.ReusedAnswerIsFaithful | backend/internal/service/rollover_scenario_service.go:105-109 | a reused answer is given iff the row holds the key; it is the current row of the requested scenario with the simulation of its input, and writes nothing |
| ScenarioLaws.KeyStaysBound | backend/internal/repository/rollover_scenario_repository.go:77-85 | over any run a scenario keeps its key unless a further simulation of it is logged |
| ScenarioLaws.LookupReusesExactly | backend/internal/service/rollover_scenario_service.go:105-113 | after any run, the key lookup answers with the current row iff the last simulation of the scenario that succeeded was made under the same key; otherwise it refuses or goes on to simulate |
| ScenarioLaws.RequestReusesExactly | backend/internal/service/rollover_scenario_service.go:90-152 | with any steps of other clients before and after its lookup, a request ends with a stored row iff the last simulation that had succeeded at the lookup was made under its key |
| ScenarioLaws.EarlyRetryIsRefused | backend/internal/service/rollover_scenario_service.go:131-138 | of two requests under one key that both passed the lookup, once one has committed the row holds the key, yet the other is refused whenever the scenario is not a draft |
| ScenarioExamples.ExampleEarlyRetry | README.md:54 | a concrete run from the empty tables in which the retry is refused although the row holds its key |
| ScenarioLaws.RepeatIsReusedExactly | README.md:54 | after any run, a request whose row read and key lookup follow each other is answered with the stored row iff the last simulation of the scenario that succeeded was made under the same key |
| ScenarioLaws.RepeatedKeyReturnsFirstResult | README.md:54 | after a simulation succeeded under a key and any run without a further logged simulation of the scenario, repeating the key returns the stored row with the result of the first call |
| ScenarioLaws.RebindingForgetsKey | README.md:54 | after a reset and a simulation under another key, repeating the first key is refused |
| ScenarioExamples.ExampleForgetsKey | README.md:54 | a concrete run from the empty tables, with the simulator of this project, in which the first key is refused |
| ScenarioLaws.ResultsNeverChange | backend/internal/service/rollover_scenario_service.go:116-147 | once simulated, the stored result is the same in every continuation |
| ScenarioService.RolloverScenarioService.CompleteSimulation | backend/internal/repository/rollover_scenario_repository.go:77-85 | writes result, key and state iff the row is a draft and no other row holds the key |
| ScenarioService.RolloverScenarioService.MoveScenario | backend/internal/repository/rollover_scenario_repository.go:86-97 | writes the new state, verifier or rollback record iff the row is still in the state that was read |
| ScenarioService.RolloverScenarioService.FindByIdempotencyKey | backend/internal/repository/rollover_scenario_repository.go:63-69 | finds a row holding the key iff there is one |
| ScenarioService.RolloverScenarioService.ReadForCreation | backend/internal/service/rollover_scenario_service.go:43-73 | for any service table: a scenario can be created iff its configuration is well formed, both anchors are stored, every candidate is on the first page of 200 chains and the stored graph is acyclic; the frozen input holds the requested configuration, its two anchors, the first page of chains and exactly the stored services |
| ScenarioService.RolloverScenarioService.FreezeRequest | backend/internal/service/rollover_scenario_service.go:43-68 | freezes the tables for a request iff it can be created: the requested configuration, its two anchors, the first 200 chains and exactly the stored services |
| ScenarioService.OffPageMeansMissing | backend/internal/service/rollover_scenario_service.go:56-59 | a service of a frozen input is reported as having no chain, at every instant, iff its chain is not on the first page of 200; its dependents then fail too |
| ScenarioService.ChainBeyondPageIsLost | backend/internal/service/rollover_scenario_service.go:56-59 | the service of a stored chain listed after the first 200 is never reachable |
| ScenarioService.RolloverScenarioService.CreateDraft | backend/internal/service/rollover_scenario_service.go:74-88 | commits a draft that was decided earlier: inserts it iff no unique index collides and the audit append succeeds, and changes nothing otherwise; keeps the invariant and undoes no pending decision |
| ScenarioService.RolloverScenarioService.ReadForSimulation | backend/internal/service/rollover_scenario_service.go:90-104 | imperative layer: the checks before the key lookup, equal to the reading step of the protocol |
| ScenarioService.RolloverScenarioService.CheckKeyAndSimulate | backend/internal/service/rollover_scenario_service.go:105-128 | the scan for the key and the simulator loop compute the key lookup and simulation step of the protocol |
| ScenarioService.RolloverScenarioService.CommitSimulation | backend/internal/service/rollover_scenario_service.go:129-152 | the simulating transaction equals the commit of the protocol, rolled back when the audit append fails; keeps the invariant and undoes no pending decision |
| ScenarioService.RolloverScenarioService.ReadForTransition | backend/internal/service/rollover_scenario_service.go:175-194 | imperative layer: equal to the reading step of a transition, with its error order |
| ScenarioService.RolloverScenarioService.CommitMove | backend/internal/service/rollover_scenario_service.go:195-225 | imperative layer: the transition transaction equals the commit of the protocol; keeps the invariant and undoes no pending decision |
| ScenarioService.RolloverScenarioService.ReadAndReplay | backend/internal/service/rollover_scenario_service.go:227-249 | running the simulator again computes the reading step of a replay |
| ScenarioService.RolloverScenarioService.CommitReplayEvidence | backend/internal/service/rollover_scenario_service.go:250-259 | imperative layer: the unconditional replay transaction equals the commit of the protocol; keeps the invariant and undoes no pending decision |
| ScenarioService.RolloverScenarioService.CommitImportedChain | backend/internal/service/certificate_chain_service.go:66-72 | imperative layer: the import transaction stores a validated chain with its audit row or nothing; keeps the invariant and undoes no pending decision |
| ScenarioService.RolloverScenarioService.CommitChainMove | backend/internal/service/certificate_chain_service.go:127-138 | imperative layer: the chain transition transaction equals the commit of the protocol; keeps the invariant and undoes no pending decision |
| RateLimiter.Limiter.Exceeds | backend/internal/middleware/auth.go:113-122 | the critical section updates one bucket and reports whether its count passed the limit |
| RateLimiter.ServeAll | backend/internal/middleware/auth.go:104-129 | a new limiter fed request by request gives the decisions the laws below speak of |
| RateLimiter.DecidedByWindow | backend/internal/middleware/auth.go:113-122 | a request is admitted iff fewer than the limit were admitted in its minute window before it |
| RateLimiter.WindowsFollow | backend/internal/middleware/auth.go:113-116 | a first request of a key opens a window at its own instant; a later one stays in the last window for 60 seconds after its start and then opens a new one |
| RateLimiter.WindowQuota | backend/internal/middleware/auth.go:113-122 | no window admits more than the limit |
| RateLimiter.AnyMinuteQuota | backend/internal/middleware/auth.go:113-122 | any half-open minute admits at most twice the limit per key |
| RateLimiter.KeysAreIndependent | backend/internal/middleware/auth.go:109-120 | the decisions about a key are those of a run with only its requests |
| Redaction.RedactValue | backend/internal/util/redaction.go:16-36 | the recursive loops over maps and lists build the specified tree in any key order |
| Redaction.SensitiveExact | backend/internal/util/redaction.go:10-19 | a key is sensitive iff it spells one of the eleven literal words in any mix of capitals |
| Redaction.RedactionIsExact | backend/internal/util/redaction.go:10-36 | every position of the output is determined by its path: along a path without a sensitive key the tree is as before, the first position under one holds the marker, nothing is left below it, and every path is of one of these kinds |
| Redaction.NonInterference | backend/internal/util/redaction.go:16-36 | outputs are equal iff the trees differ only under sensitive keys |
| Redaction.RedactionIsIdempotent | backend/internal/util/redaction.go:16-36 | redacting twice equals redacting once |
| ChainImport.ImportWindow | backend/internal/service/certificate_chain_service.go:49-58 | the loop computes the latest start and earliest end over anchor and certificates |
| ChainImport.WindowIsIntersection | backend/internal/service/certificate_chain_service.go:49-58 | an instant is in the chain's window iff it is in the half-open window of the anchor and of every certificate |
| ChainImport.SelectedChainIsCurrent | backend/internal/algorithm/simulator.go:218-221 | an imported chain selected at an instant is within the windows of its anchor and every bundle certificate |

## Left out

- Frontend, handlers, routers, role permissions, configuration, seeding, request field validation and the trust-anchor archive, restore and revoke operations: plumbing, or settled by one branch.
- PEM parsing, X.509 verification, SHA-256, bcrypt, JWT and JSON text: the validity verdict of a chain and the hash are inputs, and encodings are compared as values.
- The English wording of reasons, explanations and errors: modelled as constructors.
- List, Get and search queries, response mapping and Compare: no state. The chains reach creation in the order of their listing.
- Resolution.Resolver.ResolveService: paths are values, so the shared backing array of the appended path slices is not modelled; each path is returned before another append could reuse it.
- ServiceRegistry.SerialRunsKeepGraph: serial runs only, because the code checks the graph outside its transaction and interleaved updates can close a cycle.
- ScenarioLaws.AuditTrailsJoin: audit rows carry the status before and after and the actor, not the whole redacted row; the other fields of a logged row may be stale because the row is read before the transaction.
- ScenarioService.RolloverScenarioService.ReadForCreation: the reads of anchors, chains and services are one step, and its several errors are one refusal.
- ScenarioService.RolloverScenarioService.CommitImportedChain: chain codes, fingerprints and their unique indexes are not modelled; a taken primary key stands for a duplicate.
- ScenarioService.RolloverScenarioService.ReadForSimulation: the key is taken after trimming and as a string of bytes.
- RateLimiter.AnyMinuteQuota: for timestamps that do not decrease in the order the lock is taken; the code reads the clock before it takes the lock.
- Redaction.RedactValue: lower-casing is modelled where it can produce an ASCII letter; the log handler wrapper around it is not part of this model.
- Snapshots.NewSnapshot: the slices are separate arrays, as the callers make them.
