/**
 A concrete run with the simulator of this project: the scenario with the gap is created, simulated,
 reset and simulated under a second key. It shows that the laws about rebinding speak of real states.
 */
module ScenarioExamples {
  import opened Access
  import opened CoverageLaws
  import opened Lifecycle
  import opened ScenarioLaws
  import opened ScenarioProtocol
  import opened Snapshots

  const ADMIN := Actor(1, Admin, "PKI Platform")

  const ID: Id := 7

  function Created(w: World, input: Snapshot): State {
    Step(w, Step(w, INITIAL, Begins(0, CreateScenario(input, ADMIN))), Commits(0, ID, true))
  }

  function SimulatedUnderA(w: World, input: Snapshot): State {
    Step(w, Ask(w, Created(w, input), 0, ID, "a", ADMIN), Commits(0, 0, true))
  }

  lemma CreatedIsReachable(w: World, input: Snapshot)
    requires w.accepts(input)
    ensures Reachable(w, Created(w, input))
    ensures Created(w, input).db.scenarios == map[ID := NewScenario(w, input, ADMIN)]
  {
    assert Run(w, INITIAL, []) == INITIAL;
    StepsReach(w, INITIAL, Begins(0, CreateScenario(input, ADMIN)));
    StepsReach(w, Step(w, INITIAL, Begins(0, CreateScenario(input, ADMIN))), Commits(0, ID, true));
  }

  lemma SimulatedIsReachable(w: World, input: Snapshot)
    requires w.accepts(input)
    ensures var s := SimulatedUnderA(w, input);
      && Reachable(w, s) && s.db.scenarios.Keys == {ID}
      && s.db.scenarios[ID].state == Simulated && s.db.scenarios[ID].key == "a"
      && s.db.scenarios[ID].createdBy == ADMIN.userId
  {
    CreatedIsReachable(w, input);
    var created := Created(w, input);
    DraftSimulates(w, created, 0, ID, "a", ADMIN);
    var begun := Step(w, created, Begins(0, SimulateScenario(ID, "a", ADMIN)));
    StepsReach(w, created, Begins(0, SimulateScenario(ID, "a", ADMIN)));
    StepsReach(w, begun, LooksUp(0));
    StepsReach(w, Step(w, begun, LooksUp(0)), Commits(0, 0, true));
  }

  lemma GapIsFreezable(hash: Snapshot -> Digest)
    ensures Real(hash).accepts(GAP)
  {
    GapIsAccepted();
  }

  /** The first key of the example is refused after a reset and a simulation under "b". */
  lemma ExampleForgetsKey(hash: Snapshot -> Digest)
    ensures var w := Real(hash);
      var s := SimulatedUnderA(w, GAP);
      && Reachable(w, s) && KeyHeldBy(s.db, "a", ID)
      && AnsweredWith(Ask(w, Resimulated(w, s, 0, ID, "b", ADMIN), 0, ID, "a", ADMIN), 0,
                      Refused(OnlyDraftSimulates))
  {
    var w := Real(hash);
    GapIsFreezable(hash);
    SimulatedIsReachable(w, GAP);
    RebindingForgetsKey(w, SimulatedUnderA(w, GAP), 0, ID, "b", ADMIN);
  }

  function HeldDecision(w: World, input: Snapshot): State {
    Step(w, SimulatedUnderA(w, input), Begins(1, TransitionScenario(ID, Ready, "", ADMIN)))
  }

  lemma DecisionIsHeld(w: World, input: Snapshot)
    requires w.accepts(input)
    ensures var s, held := SimulatedUnderA(w, input), HeldDecision(w, input);
      && Reachable(w, held) && held.db == s.db && ID in s.db.scenarios && 1 in held.clients
      && held.clients[1] == TransitionReady(ID, Ready, "", ADMIN, s.db.scenarios[ID])
  {
    SimulatedIsReachable(w, input);
    StepsReach(w, SimulatedUnderA(w, input), Begins(1, TransitionScenario(ID, Ready, "", ADMIN)));
  }

  lemma StaleDecisionCommits(w: World, input: Snapshot)
    requires w.accepts(input)
    ensures var again := Resimulated(w, HeldDecision(w, input), 0, ID, "b", ADMIN);
      && Reachable(w, HeldDecision(w, input)) && KeyHeldBy(again.db, "b", ID)
      && AnsweredWith(Step(w, again, Commits(1, 0, true)), 1, Done(ID))
  {
    SimulatedIsReachable(w, input);
    DecisionIsHeld(w, input);
    ReturnedStateLetsStaleDecisionCommit(w, HeldDecision(w, input), 0, 1, ID, "b");
  }

  /** A decision on the first simulation of the example commits after the second. */
  lemma ExampleStaleDecision(hash: Snapshot -> Digest)
    ensures var w := Real(hash);
      var again := Resimulated(w, HeldDecision(w, GAP), 0, ID, "b", ADMIN);
      && Reachable(w, HeldDecision(w, GAP)) && KeyHeldBy(again.db, "b", ID)
      && AnsweredWith(Step(w, again, Commits(1, 0, true)), 1, Done(ID))
  {
    GapIsFreezable(hash);
    StaleDecisionCommits(Real(hash), GAP);
  }

  /** Clients 0 and 1 have both looked up the key "a", which nobody holds yet. */
  function BothLookedUp(w: World, input: Snapshot): State {
    Ask(w, Ask(w, Created(w, input), 0, ID, "a", ADMIN), 1, ID, "a", ADMIN)
  }

  lemma AskIsReachable(w: World, s: State, k: nat)
    requires Reachable(w, s)
    ensures Reachable(w, Ask(w, s, k, ID, "a", ADMIN))
  {
    var begun := Step(w, s, Begins(k, SimulateScenario(ID, "a", ADMIN)));
    StepsReach(w, s, Begins(k, SimulateScenario(ID, "a", ADMIN)));
    StepsReach(w, begun, LooksUp(k));
  }

  lemma EarlyRetryRun(w: World, input: Snapshot)
    requires w.accepts(input)
    ensures var s := BothLookedUp(w, input);
      var first := AfterCommit(w, s, 0);
      && Reachable(w, s) && AnsweredWith(first, 0, Done(ID)) && KeyHeldBy(first.db, "a", ID)
      && AnsweredWith(Step(w, first, Commits(1, 0, true)), 1, Refused(ChangedConcurrently))
  {
    CreatedIsReachable(w, input);
    AskIsReachable(w, Created(w, input), 0);
    AskIsReachable(w, Ask(w, Created(w, input), 0, ID, "a", ADMIN), 1);
    var s := BothLookedUp(w, input);
    var c := SimulateReady(ID, "a", ADMIN, NewScenario(w, input, ADMIN), w.simulate(input));
    assert s.clients[0] == c && s.clients[1] == c;
    EarlyRetryIsRefused(w, s, 0, 1, [], true);
    assert Run(w, AfterCommit(w, s, 0), []) == AfterCommit(w, s, 0);
  }

  /** The retry that looked up "a" before the first commit is refused, although "a" is then held. */
  lemma ExampleEarlyRetry(hash: Snapshot -> Digest)
    ensures var w := Real(hash);
      var first := AfterCommit(w, BothLookedUp(w, GAP), 0);
      && Reachable(w, BothLookedUp(w, GAP)) && AnsweredWith(first, 0, Done(ID))
      && KeyHeldBy(first.db, "a", ID)
      && AnsweredWith(Step(w, first, Commits(1, 0, true)), 1, Refused(ChangedConcurrently))
  {
    GapIsFreezable(hash);
    EarlyRetryRun(Real(hash), GAP);
  }
}
