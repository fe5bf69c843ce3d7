/** The transition tables of rollover scenarios and certificate chains. */
module Lifecycle {
  import opened Snapshots

  datatype ScenarioState = Draft | Simulated | Ready | Executing | Verified | Rollback

  predicate CanTransitionScenario(from: ScenarioState, to: ScenarioState) {
    match from
    case Draft => to == Simulated
    case Simulated => to == Ready || to == Draft
    case Ready => to == Executing || to == Draft
    case Executing => to == Verified || to == Rollback
    case _ => false
  }

  predicate CanTransitionChain(from: ChainState, to: ChainState) {
    match from
    case Imported => to == Validated || to == Revoked
    case Validated => to == Deprecated || to == Revoked
    case Deprecated => to == Revoked
    case Revoked => false
  }
}
