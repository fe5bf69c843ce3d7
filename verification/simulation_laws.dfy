/**
 What the simulation as a whole promises: complete accounting, real witnesses, monotonicity in the
 trust material and the dependencies, and evidence that covers the time between two samples.
 */
module SimulationLaws {
  import opened Graphs
  import opened Ordering
  import opened Resolution
  import opened Simulator
  import opened Snapshots
  import opened TrustPaths

  ghost predicate ReachableAt(s: Snapshot, at: Instant, id: Id) {
    ResolvesWell(DirectAt(s, at), GraphOf(s), {}, id)
  }

  ghost predicate ActiveIn(services: seq<ServiceSnapshot>, id: Id) {
    exists x :: x in services && x.id == id && x.state == Active
  }

  ghost predicate Affects(affected: seq<AffectedService>, id: Id, at: Instant) {
    exists a :: a in affected && a.serviceId == id && a.at == at
  }

  // --- Tables of a snapshot with distinct ids ---

  lemma {:induction false} ServicesByIdExact(services: seq<ServiceSnapshot>)
    requires DistinctBy(services, ServiceKey)
    ensures forall id :: id in ServicesById(services) <==> exists x :: x in services && x.id == id
    ensures forall x :: x in services ==> ServicesById(services)[x.id] == x
  {
    if services != [] {
      var n := |services| - 1;
      ServicesByIdExact(services[..n]);
      assert forall x :: x in services <==> x in services[..n] || x == services[n];
      assert forall i :: 0 <= i < n ==> ServiceKey(services[i]) != ServiceKey(services[n]);
    }
  }

  lemma {:induction false} ChainsByIdKeys(chains: seq<ChainSnapshot>)
    ensures forall id :: id in ChainsById(chains) <==> exists c :: c in chains && c.id == id
  {
    if chains != [] {
      var n := |chains| - 1;
      ChainsByIdKeys(chains[..n]);
      assert forall c :: c in chains <==> c in chains[..n] || c == chains[n];
    }
  }

  /** Of several rows with one id the last one is tabulated. */
  lemma {:induction false} LastChainWins(chains: seq<ChainSnapshot>, i: nat)
    requires i < |chains| && forall j :: i < j < |chains| ==> chains[j].id != chains[i].id
    ensures chains[i].id in ChainsById(chains) && ChainsById(chains)[chains[i].id] == chains[i]
  {
    var n := |chains| - 1;
    if i < n {
      LastChainWins(chains[..n], i);
    }
  }

  lemma {:induction false} LastServiceWins(services: seq<ServiceSnapshot>, i: nat)
    requires i < |services| && forall j :: i < j < |services| ==> services[j].id != services[i].id
    ensures services[i].id in ServicesById(services)
    ensures ServicesById(services)[services[i].id] == services[i]
  {
    var n := |services| - 1;
    if i < n {
      LastServiceWins(services[..n], i);
    }
  }

  lemma {:induction false} DirectOverKeys(services: seq<ServiceSnapshot>, at: Instant,
      active: set<Id>, candidates: seq<Id>, chains: ChainTable, id: Id)
    ensures id in DirectOver(services, at, active, candidates, chains) <==> ActiveIn(services, id)
  {
    if services != [] {
      var n := |services| - 1;
      DirectOverKeys(services[..n], at, active, candidates, chains, id);
      assert forall x :: x in services <==> x in services[..n] || x == services[n];
    }
  }

  lemma {:induction false} DirectOverValue(services: seq<ServiceSnapshot>, at: Instant,
      active: set<Id>, candidates: seq<Id>, chains: ChainTable, i: nat)
    requires DistinctBy(services, ServiceKey)
    requires i < |services| && services[i].state == Active
    ensures var direct := DirectOver(services, at, active, candidates, chains);
      services[i].id in direct
      && direct[services[i].id] == Direct(services[i], at, active, candidates, chains)
  {
    var n := |services| - 1;
    if i < n {
      DirectOverValue(services[..n], at, active, candidates, chains, i);
      assert ServiceKey(services[i]) != ServiceKey(services[n]);
    }
  }

  /** An active service is judged by its own chain and trust set; no other id has an entry. */
  lemma DirectAtExact(s: Snapshot, at: Instant, x: ServiceSnapshot)
    requires DistinctBy(s.services, ServiceKey) && x in s.services
    ensures x.id in DirectAt(s, at) <==> x.state == Active
    ensures x.state == Active ==>
      DirectAt(s, at)[x.id] == Direct(x, at, ActiveAnchors(s.config, at),
                                      s.config.candidateChainIds, ChainsById(s.chains))
  {
    var active, chains := ActiveAnchors(s.config, at), ChainsById(s.chains);
    var i :| 0 <= i < |s.services| && s.services[i] == x;
    DirectOverKeys(s.services, at, active, s.config.candidateChainIds, chains, x.id);
    if x.state == Active {
      DirectOverValue(s.services, at, active, s.config.candidateChainIds, chains, i);
    } else {
      forall y | y in s.services && y.id == x.id ensures y == x {
        var j :| 0 <= j < |s.services| && s.services[j] == y;
        assert ServiceKey(s.services[i]) == ServiceKey(s.services[j]);
      }
    }
  }

  // --- Accounting ---

  function ActiveIds(services: seq<ServiceSnapshot>): seq<Id> {
    if services == [] then []
    else
      var n := |services| - 1;
      ActiveIds(services[..n]) + if services[n].state == Active then [services[n].id] else []
  }

  function FailedIn(at: Instant, items: seq<Evidence>): seq<(Instant, Evidence)> {
    if items == [] then []
    else
      var n := |items| - 1;
      FailedIn(at, items[..n]) + if items[n].reachable then [] else [(at, items[n])]
  }

  /** The unreachable items of all instants, in the order of the evidence. */
  function FailedOver(evidence: seq<TimepointEvidence>): seq<(Instant, Evidence)> {
    if evidence == [] then []
    else
      var n := |evidence| - 1;
      FailedOver(evidence[..n]) + FailedIn(evidence[n].at, evidence[n].services)
  }

  ghost predicate Records(affected: seq<AffectedService>, failed: seq<(Instant, Evidence)>) {
    |affected| == |failed| && forall k :: 0 <= k < |affected| ==>
      && affected[k].at == failed[k].0
      && affected[k].serviceId == failed[k].1.serviceId
      && affected[k].reason == failed[k].1.reason
  }

  /** The two rows stand for the same failure of an active service. */
  ghost predicate SameFailure(s: Snapshot, a: AffectedService, b: BrokenPath) {
    exists x :: x in s.services && FailureOf(s, x, a, b)
  }

  ghost predicate FailureOf(s: Snapshot, x: ServiceSnapshot, a: AffectedService, b: BrokenPath) {
    var (item, path) := Resolve(DirectAt(s, a.at), GraphOf(s), {}, x.id, []);
    && x.state == Active && !item.reachable
    && a == AffectedService(x.id, x.code, x.criticality, a.at, item.reason)
    && b == BrokenPath(a.at, PathCodes(ServicesById(s.services), path), item.reason)
  }

  ghost predicate SameFailures(s: Snapshot, affected: seq<AffectedService>, broken: seq<BrokenPath>) {
    |affected| == |broken| && forall k :: 0 <= k < |affected| ==>
      SameFailure(s, affected[k], broken[k])
  }

  lemma ItemsOfExtends(items: seq<Evidence>, ids: seq<Id>, item: Evidence, id: Id)
    requires ItemsOf(items, ids) && item.serviceId == id
    ensures ItemsOf(items + [item], ids + [id])
  {
  }

  lemma {:induction false} RoundItems(services: seq<ServiceSnapshot>, at: Instant,
      direct: DirectTable, table: map<Id, ServiceSnapshot>)
    requires OwnEvidence(direct)
    ensures ItemsOf(RoundOver(services, at, direct, table).items, ActiveIds(services))
  {
    if services != [] {
      var n := |services| - 1;
      RoundItems(services[..n], at, direct, table);
      if services[n].state == Active {
        var item := Resolve(direct, Edges(table), {}, services[n].id, []).0;
        ResolvedId(direct, Edges(table), {}, services[n].id);
        ItemsOfExtends(RoundOver(services[..n], at, direct, table).items, ActiveIds(services[..n]),
                       item, services[n].id);
      }
    }
  }

  lemma OneMoreItem(at: Instant, items: seq<Evidence>, item: Evidence)
    ensures FailedIn(at, items + [item])
         == FailedIn(at, items) + if item.reachable then [] else [(at, item)]
  {
    assert (items + [item])[..|items|] == items;
  }

  lemma {:induction false} RoundRecords(services: seq<ServiceSnapshot>, at: Instant,
      direct: DirectTable, table: map<Id, ServiceSnapshot>)
    requires OwnEvidence(direct)
    ensures var round := RoundOver(services, at, direct, table);
      Records(round.affected, FailedIn(at, round.items))
  {
    if services != [] {
      var n := |services| - 1;
      RoundRecords(services[..n], at, direct, table);
      var rest := RoundOver(services[..n], at, direct, table);
      if services[n].state == Active {
        ResolvedId(direct, Edges(table), {}, services[n].id);
        OneMoreItem(at, rest.items, Resolve(direct, Edges(table), {}, services[n].id, []).0);
      }
    }
  }

  lemma {:induction false} RoundFailures(s: Snapshot, at: Instant, n: nat)
    requires n <= |s.services|
    ensures var round := RoundOver(s.services[..n], at, DirectAt(s, at), ServicesById(s.services));
      SameFailures(s, round.affected, round.broken)
  {
    if n > 0 {
      RoundFailures(s, at, n - 1);
      assert s.services[..n][..n - 1] == s.services[..n - 1];
      var x := s.services[n - 1];
      if x.state == Active {
        var (item, path) := Resolve(DirectAt(s, at), GraphOf(s), {}, x.id, []);
        if !item.reachable {
          var a := AffectedService(x.id, x.code, x.criticality, at, item.reason);
          var b := BrokenPath(at, PathCodes(ServicesById(s.services), path), item.reason);
          assert x in s.services && FailureOf(s, x, a, b);
          assert SameFailure(s, a, b);
        }
      }
    }
  }

  lemma RoundAccounts(s: Snapshot, at: Instant)
    ensures var round := RoundAt(s, at);
      && ItemsOf(round.items, ActiveIds(s.services))
      && SameFailures(s, round.affected, round.broken)
      && Records(round.affected, FailedIn(at, round.items))
  {
    DirectOverIsOwn(s.services, at, ActiveAnchors(s.config, at), s.config.candidateChainIds,
                    ChainsById(s.chains));
    RoundItems(s.services, at, DirectAt(s, at), ServicesById(s.services));
    RoundRecords(s.services, at, DirectAt(s, at), ServicesById(s.services));
    RoundFailures(s, at, |s.services|);
    assert s.services[..|s.services|] == s.services;
  }

  lemma FailuresJoin(s: Snapshot, a: seq<AffectedService>, b: seq<BrokenPath>,
                     a': seq<AffectedService>, b': seq<BrokenPath>)
    requires SameFailures(s, a, b) && SameFailures(s, a', b')
    ensures SameFailures(s, a + a', b + b')
  {
  }

  lemma RecordsJoin(a: seq<AffectedService>, f: seq<(Instant, Evidence)>,
                    a': seq<AffectedService>, f': seq<(Instant, Evidence)>)
    requires Records(a, f) && Records(a', f')
    ensures Records(a + a', f + f')
  {
  }

  lemma {:induction false} ReportAccounts(s: Snapshot, points: seq<Instant>)
    ensures var report := ReportOver(s, points);
      && SameFailures(s, report.affected, report.broken)
      && Records(report.affected, FailedOver(EvidenceOver(s, points)))
  {
    if points != [] {
      var n := |points| - 1;
      ReportAccounts(s, points[..n]);
      RoundAccounts(s, points[n]);
      assert EvidenceOver(s, points)[..n] == EvidenceOver(s, points[..n]);
      var rest, round := ReportOver(s, points[..n]), RoundAt(s, points[n]);
      FailuresJoin(s, rest.affected, rest.broken, round.affected, round.broken);
      RecordsJoin(rest.affected, FailedOver(EvidenceOver(s, points[..n])),
                  round.affected, FailedIn(points[n], round.items));
    }
  }

  /**
   Complete accounting: one evidence entry per critical instant, in order, each with one item per
   active service; affected services and broken paths pair up row by row and list exactly the
   unreachable items in the order of the evidence.
   */
  lemma AccountingIsComplete(s: Snapshot)
    ensures var result, points := Simulation(s), CriticalTimes(s.config);
      && |result.evidence| == |points|
      && (forall k :: 0 <= k < |points| ==>
            && result.evidence[k].at == points[k]
            && ItemsOf(result.evidence[k].services, ActiveIds(s.services)))
      && SameFailures(s, result.affected, result.broken)
      && Records(result.affected, FailedOver(result.evidence))
  {
    var points := CriticalTimes(s.config);
    ReportAccounts(s, points);
    forall k | 0 <= k < |points|
      ensures Simulation(s).evidence[k].at == points[k]
      ensures ItemsOf(Simulation(s).evidence[k].services, ActiveIds(s.services))
    {
      RoundAccounts(s, points[k]);
    }
  }

  ghost predicate ItemsOf(items: seq<Evidence>, ids: seq<Id>) {
    |items| == |ids| && forall k :: 0 <= k < |ids| ==> items[k].serviceId == ids[k]
  }

  // --- Exactly the failing (service, instant) pairs are reported ---

  lemma {:induction false} RoundAffects(services: seq<ServiceSnapshot>, at: Instant,
      direct: DirectTable, table: map<Id, ServiceSnapshot>, id: Id, t: Instant)
    ensures Affects(RoundOver(services, at, direct, table).affected, id, t) <==>
      t == at && ActiveIn(services, id) && !ResolvesWell(direct, Edges(table), {}, id)
  {
    if services != [] {
      var n := |services| - 1;
      var x := services[n];
      RoundAffects(services[..n], at, direct, table, id, t);
      assert forall y :: y in services <==> y in services[..n] || y == x;
      var rest, round := RoundOver(services[..n], at, direct, table), RoundOver(services, at, direct, table);
      if x.state == Active && !ResolvesWell(direct, Edges(table), {}, x.id) {
        var reason := Resolve(direct, Edges(table), {}, x.id, []).0.reason;
        var a := AffectedService(x.id, x.code, x.criticality, at, reason);
        assert round.affected == rest.affected + [a];
        assert forall y :: y in round.affected <==> y in rest.affected || y == a;
      } else {
        assert round.affected == rest.affected;
      }
    }
  }

  lemma AffectsJoins(a: seq<AffectedService>, b: seq<AffectedService>, id: Id, t: Instant)
    ensures Affects(a + b, id, t) <==> Affects(a, id, t) || Affects(b, id, t)
  {
    assert forall x :: x in a + b <==> x in a || x in b;
  }

  lemma RoundAtAffects(s: Snapshot, at: Instant, id: Id, t: Instant)
    ensures Affects(RoundAt(s, at).affected, id, t) <==>
      t == at && ActiveIn(s.services, id) && !ReachableAt(s, t, id)
  {
    RoundAffects(s.services, at, DirectAt(s, at), ServicesById(s.services), id, t);
  }

  lemma {:induction false} ReportAffects(s: Snapshot, points: seq<Instant>, id: Id, t: Instant)
    ensures Affects(ReportOver(s, points).affected, id, t) <==>
      t in points && ActiveIn(s.services, id) && !ReachableAt(s, t, id)
  {
    if points == [] {
      assert ReportOver(s, points).affected == [];
    } else {
      var n := |points| - 1;
      ReportAffects(s, points[..n], id, t);
      RoundAtAffects(s, points[n], id, t);
      AffectsJoins(ReportOver(s, points[..n]).affected, RoundAt(s, points[n]).affected, id, t);
      assert t in points <==> t in points[..n] || t == points[n];
    }
  }

  lemma AffectedExact(s: Snapshot, id: Id, t: Instant)
    ensures Affects(Simulation(s).affected, id, t) <==>
      t in CriticalTimes(s.config) && ActiveIn(s.services, id) && !ReachableAt(s, t, id)
  {
    ReportAffects(s, CriticalTimes(s.config), id, t);
  }

  ghost predicate FailsAt(s: Snapshot, id: Id, t: Instant) {
    t in CriticalTimes(s.config) && ActiveIn(s.services, id) && !ReachableAt(s, t, id)
  }

  ghost predicate FailsBefore(s: Snapshot, limit: Instant) {
    exists id, t :: FailsAt(s, id, t) && t < limit
  }

  ghost predicate FailsAfter(s: Snapshot, limit: Instant) {
    exists id, t :: FailsAt(s, id, t) && t > limit
  }

  lemma AffectedRowsFail(s: Snapshot)
    ensures forall id, t :: FailsAt(s, id, t) <==> Affects(Simulation(s).affected, id, t)
    ensures forall a :: a in Simulation(s).affected ==> FailsAt(s, a.serviceId, a.at)
  {
    forall id, t ensures FailsAt(s, id, t) <==> Affects(Simulation(s).affected, id, t) {
      AffectedExact(s, id, t);
    }
    forall a | a in Simulation(s).affected ensures FailsAt(s, a.serviceId, a.at) {
      assert Affects(Simulation(s).affected, a.serviceId, a.at);
    }
  }

  lemma LateAndEarly(s: Snapshot, limit: Instant)
    ensures (exists a :: a in Simulation(s).affected && a.at < limit) <==> FailsBefore(s, limit)
    ensures (exists a :: a in Simulation(s).affected && a.at > limit) <==> FailsAfter(s, limit)
  {
    AffectedRowsFail(s);
  }

  lemma NothingFails(s: Snapshot)
    ensures Simulation(s).affected == [] <==> forall id, t :: !FailsAt(s, id, t)
  {
    var affected := Simulation(s).affected;
    AffectedRowsFail(s);
    if affected != [] {
      assert affected[0] in affected;
      assert FailsAt(s, affected[0].serviceId, affected[0].at);
    }
  }

  /** The explanation is decided by which instants see a failure. */
  lemma ExplanationExact(s: Snapshot)
    ensures var e := Simulation(s).explanation;
      && (e == AllReachable <==> forall id, t :: !FailsAt(s, id, t))
      && (e != AllReachable ==>
            && e.Failures? && e.affected == e.broken == |FailedOver(Simulation(s).evidence)|
            && (e.early <==> FailsBefore(s, s.config.overlapStart))
            && (e.late <==> FailsAfter(s, s.config.overlapEnd)))
  {
    AccountingIsComplete(s);
    NothingFails(s);
    LateAndEarly(s, s.config.overlapStart);
    LateAndEarly(s, s.config.overlapEnd);
  }

  // --- Broken paths are witnesses ---

  /** w leads from the service over usable services to the first one that fails by itself. */
  ghost predicate TrustWitness(s: Snapshot, at: Instant, id: Id, w: seq<Id>) {
    var direct, g := DirectAt(s, at), GraphOf(s);
    && IsPath(g, w) && w[0] == id && NoRepeats(w)
    && (forall i :: 0 <= i < |w| - 1 ==> Good(direct, w[i]))
    && !Good(direct, w[|w| - 1])
    && (forall i :: 0 <= i < |w| - 1 ==> FirstSuspect(direct, g, w[i], w[i + 1]))
    && (forall x :: x in w ==> !ClosureGood(direct, g, x))
  }

  /** The codes of the services on the path; a last service that does not exist has none. */
  ghost predicate SpellsOut(codes: seq<string>, table: map<Id, ServiceSnapshot>, w: seq<Id>)
    requires w != []
  {
    && |codes| == |w| - (if w[|w| - 1] in table then 0 else 1)
    && forall i :: 0 <= i < |codes| ==> w[i] in table && codes[i] == table[w[i]].code
  }

  lemma {:induction false} CodesOfKnownPath(table: map<Id, ServiceSnapshot>, path: seq<Id>)
    requires forall x :: x in path ==> x in table
    ensures var codes := PathCodes(table, path);
      |codes| == |path| && forall i :: 0 <= i < |path| ==> codes[i] == table[path[i]].code
  {
    if path != [] {
      CodesOfKnownPath(table, path[..|path| - 1]);
    }
  }

  lemma PathIsSpelledOut(table: map<Id, ServiceSnapshot>, w: seq<Id>)
    requires w != [] && forall i :: 0 <= i < |w| - 1 ==> w[i] in table
    ensures SpellsOut(PathCodes(table, w), table, w)
  {
    CodesOfKnownPath(table, w[..|w| - 1]);
  }

  lemma {:induction false} DirectIsKnown(services: seq<ServiceSnapshot>, at: Instant,
      active: set<Id>, candidates: seq<Id>, chains: ChainTable)
    ensures DirectOver(services, at, active, candidates, chains).Keys <= ServicesById(services).Keys
  {
    if services != [] {
      DirectIsKnown(services[..|services| - 1], at, active, candidates, chains);
    }
  }

  lemma BrokenPathsAreWitnesses(s: Snapshot, k: nat)
    requires Accepts(s) && k < |Simulation(s).broken|
    ensures |Simulation(s).affected| == |Simulation(s).broken|
    ensures var a, b := Simulation(s).affected[k], Simulation(s).broken[k];
      && RootCause(b.reason) != CycleEncountered
      && exists w :: TrustWitness(s, b.at, a.serviceId, w)
                  && SpellsOut(b.serviceCodes, ServicesById(s.services), w)
                  && b.reason == Told(DirectAt(s, b.at), {}, w)
  {
    AccountingIsComplete(s);
    var a, b := Simulation(s).affected[k], Simulation(s).broken[k];
    assert SameFailure(s, a, b);
    var x :| x in s.services && FailureOf(s, x, a, b);
    var direct, g := DirectAt(s, b.at), GraphOf(s);
    var active, chains := ActiveAnchors(s.config, b.at), ChainsById(s.chains);
    DirectOverIsOwn(s.services, b.at, active, s.config.candidateChainIds, chains);
    DirectIsKnown(s.services, b.at, active, s.config.candidateChainIds, chains);
    AcyclicWitness(direct, g, x.id);
    CycleBranchNeverTaken(direct, g, x.id);
    var w := Resolve(direct, g, {}, x.id, []).1;
    assert TrustWitness(s, b.at, x.id, w);
    PathIsSpelledOut(ServicesById(s.services), w);
  }

  // --- What makes an active service good ---

  ghost predicate HasUsableChain(s: Snapshot, x: ServiceSnapshot, at: Instant) {
    var chains := ChainsById(s.chains);
    x.chainId in chains && exists id ::
      && id in SortedUnique([x.chainId] + s.config.candidateChainIds)
      && UsableId(x, chains[x.chainId].leafSubject, at, ActiveAnchors(s.config, at), chains, id)
  }

  lemma GoodExact(s: Snapshot, at: Instant, x: ServiceSnapshot)
    requires DistinctBy(s.services, ServiceKey) && x in s.services && x.state == Active
    ensures Good(DirectAt(s, at), x.id) <==> HasUsableChain(s, x, at)
  {
    DirectAtExact(s, at, x);
    if x.chainId in ChainsById(s.chains) {
      DirectExact(x, at, ActiveAnchors(s.config, at), s.config.candidateChainIds,
                  ChainsById(s.chains));
    }
  }

  /** The evidence names a missing own chain exactly when it is missing; dependents then fail too. */
  lemma MissingChainExact(s: Snapshot, at: Instant, x: ServiceSnapshot)
    requires DistinctBy(s.services, ServiceKey) && x in s.services && x.state == Active
    ensures x.chainId !in ChainsById(s.chains) <==>
      Resolve(DirectAt(s, at), GraphOf(s), {}, x.id, []).0 == Evidence(x.id, x.code, false, 0, 0, ChainMissing)
    ensures x.chainId !in ChainsById(s.chains) ==>
      forall p :: IsPath(GraphOf(s), p) && p[|p| - 1] == x.id ==> !ReachableAt(s, at, p[0])
  {
    DirectAtExact(s, at, x);
    if x.chainId in ChainsById(s.chains) {
      DirectExact(x, at, ActiveAnchors(s.config, at), s.config.candidateChainIds,
                  ChainsById(s.chains));
      if !ResolvesWell(DirectAt(s, at), GraphOf(s), {}, x.id) {
        FailureHasWitness(DirectAt(s, at), GraphOf(s), {}, x.id);
      }
    } else {
      forall p | IsPath(GraphOf(s), p) && p[|p| - 1] == x.id ensures !ReachableAt(s, at, p[0]) {
        ResolveExact(DirectAt(s, at), GraphOf(s), p[0]);
      }
    }
  }

  lemma GoodIsActive(s: Snapshot, at: Instant, id: Id) returns (x: ServiceSnapshot)
    requires Good(DirectAt(s, at), id)
    ensures x in s.services && x.id == id && x.state == Active
  {
    DirectOverKeys(s.services, at, ActiveAnchors(s.config, at), s.config.candidateChainIds,
                   ChainsById(s.chains), id);
    x :| x in s.services && x.id == id && x.state == Active;
  }

  // --- Two samples cover the time between them ---

  /** Every service the root depends on selects one and the same chain at both instants. */
  ghost predicate SameSelections(s: Snapshot, root: Id, p: Instant, q: Instant) {
    forall w :: IsPath(GraphOf(s), w) && w[0] == root ==>
      var x := w[|w| - 1];
      x in DirectAt(s, p) && x in DirectAt(s, q)
      && DirectAt(s, p)[x].selectedChainId == DirectAt(s, q)[x].selectedChainId
  }

  lemma GoodBetween(s: Snapshot, id: Id, p: Instant, t: Instant, q: Instant)
    requires DistinctBy(s.services, ServiceKey) && p <= t <= q
    requires Good(DirectAt(s, p), id) && Good(DirectAt(s, q), id)
    requires DirectAt(s, p)[id].selectedChainId == DirectAt(s, q)[id].selectedChainId
    ensures Good(DirectAt(s, t), id)
  {
    var x := GoodIsActive(s, p, id);
    var chains, candidates := ChainsById(s.chains), s.config.candidateChainIds;
    DirectAtExact(s, p, x);
    DirectAtExact(s, q, x);
    DirectExact(x, p, ActiveAnchors(s.config, p), candidates, chains);
    DirectExact(x, q, ActiveAnchors(s.config, q), candidates, chains);
    var chosen := DirectAt(s, p)[id].selectedChainId;
    UsabilityIsAnInterval(s.config, x, chains[chosen], p, t, q);
    assert UsableId(x, chains[x.chainId].leafSubject, t, ActiveAnchors(s.config, t), chains, chosen);
    GoodExact(s, t, x);
  }

  /** Reachable at two instants with the same chains selected, hence at every instant between. */
  lemma SampledEvidenceCoversInterval(s: Snapshot, root: Id, p: Instant, t: Instant, q: Instant)
    requires DistinctBy(s.services, ServiceKey) && p <= t <= q
    requires ReachableAt(s, p, root) && ReachableAt(s, q, root)
    requires SameSelections(s, root, p, q)
    ensures ReachableAt(s, t, root)
  {
    var g := GraphOf(s);
    ResolveExact(DirectAt(s, p), g, root);
    ResolveExact(DirectAt(s, q), g, root);
    ResolveExact(DirectAt(s, t), g, root);
    forall w | IsPath(g, w) && w[0] == root ensures Good(DirectAt(s, t), w[|w| - 1]) {
      GoodBetween(s, w[|w| - 1], p, t, q);
    }
  }

  /** No failure reported: between two samples with the same selections nothing fails either. */
  lemma AllReachableCoversInterval(s: Snapshot, root: Id, p: Instant, t: Instant, q: Instant)
    requires DistinctBy(s.services, ServiceKey) && p <= t <= q && ActiveIn(s.services, root)
    requires Simulation(s).explanation == AllReachable
    requires p in CriticalTimes(s.config) && q in CriticalTimes(s.config)
    requires SameSelections(s, root, p, q)
    ensures ReachableAt(s, t, root)
  {
    ExplanationExact(s);
    assert !FailsAt(s, root, p) && !FailsAt(s, root, q);
    SampledEvidenceCoversInterval(s, root, p, t, q);
  }

  // --- Monotonicity ---

  ghost predicate WiderWindow(c: ChainSnapshot, c': ChainSnapshot) {
    && c' == c.(validFrom := c'.validFrom, validTo := c'.validTo)
    && c'.validFrom <= c.validFrom && c.validTo <= c'.validTo
  }

  ghost predicate MoreTrust(x: ServiceSnapshot, x': ServiceSnapshot) {
    && x' == x.(trustAnchorIds := x'.trustAnchorIds)
    && forall a :: a in x.trustAnchorIds ==> a in x'.trustAnchorIds
  }

  ghost predicate MoreDependencies(x: ServiceSnapshot, x': ServiceSnapshot) {
    && x' == x.(dependencyIds := x'.dependencyIds)
    && forall d :: d in x.dependencyIds ==> d in x'.dependencyIds
  }

  /** s' differs from s by extra trusted anchors, extra existing candidates and wider windows. */
  ghost predicate Relaxes(s: Snapshot, s': Snapshot) {
    && s'.anchors == s.anchors
    && s'.config == s.config.(candidateChainIds := s'.config.candidateChainIds)
    && (forall c :: c in s.config.candidateChainIds ==> c in s'.config.candidateChainIds)
    && (forall c :: c in s'.config.candidateChainIds ==> HasChain(s', c))
    && |s'.chains| == |s.chains|
    && (forall i :: 0 <= i < |s.chains| ==> WiderWindow(s.chains[i], s'.chains[i]))
    && |s'.services| == |s.services|
    && (forall i :: 0 <= i < |s.services| ==> MoreTrust(s.services[i], s'.services[i]))
  }

  /** s' differs from s by extra dependencies. */
  ghost predicate AddsDependencies(s: Snapshot, s': Snapshot) {
    && s' == s.(services := s'.services)
    && |s'.services| == |s.services|
    && forall i :: 0 <= i < |s.services| ==> MoreDependencies(s.services[i], s'.services[i])
  }

  lemma {:induction false} WiderTables(chains: seq<ChainSnapshot>, chains': seq<ChainSnapshot>)
    requires |chains'| == |chains|
    requires forall i :: 0 <= i < |chains| ==> WiderWindow(chains[i], chains'[i])
    ensures ChainsById(chains).Keys == ChainsById(chains').Keys
    ensures forall id :: id in ChainsById(chains) ==>
      WiderWindow(ChainsById(chains)[id], ChainsById(chains')[id])
  {
    if chains != [] {
      WiderTables(chains[..|chains| - 1], chains'[..|chains| - 1]);
    }
  }

  lemma {:induction false} SameEdges(services: seq<ServiceSnapshot>, services': seq<ServiceSnapshot>)
    requires |services'| == |services|
    requires forall i :: 0 <= i < |services| ==> MoreTrust(services[i], services'[i])
    ensures Edges(ServicesById(services)) == Edges(ServicesById(services'))
  {
    if services != [] {
      var n := |services| - 1;
      SameEdges(services[..n], services'[..n]);
      assert MoreTrust(services[n], services'[n]);
      EdgesOfUpdate(ServicesById(services[..n]), services[n]);
      EdgesOfUpdate(ServicesById(services'[..n]), services'[n]);
    }
  }

  lemma EdgesOfUpdate(table: map<Id, ServiceSnapshot>, x: ServiceSnapshot)
    ensures Edges(table[x.id := x]) == Edges(table)[x.id := x.dependencyIds]
  {
  }

  lemma UpdateKeepsEdges(g: Graph, h: Graph, x: Id, targets: seq<Id>, more: seq<Id>)
    requires g.Keys == h.Keys && HasEdgesOf(h, g)
    requires forall y :: y in targets ==> y in more
    ensures HasEdgesOf(h[x := more], g[x := targets])
  {
    var fewer, extended := g[x := targets], h[x := more];
    forall z, y | y in Next(fewer, z) ensures y in Next(extended, z) {
      if z != x {
        assert y in Next(g, z);
      }
    }
  }

  lemma {:induction false} MoreEdges(services: seq<ServiceSnapshot>, services': seq<ServiceSnapshot>)
    requires |services'| == |services|
    requires forall i :: 0 <= i < |services| ==> MoreDependencies(services[i], services'[i])
    ensures ServicesById(services).Keys == ServicesById(services').Keys
    ensures HasEdgesOf(Edges(ServicesById(services')), Edges(ServicesById(services)))
  {
    if services != [] {
      var n := |services| - 1;
      MoreEdges(services[..n], services'[..n]);
      assert MoreDependencies(services[n], services'[n]);
      EdgesOfUpdate(ServicesById(services[..n]), services[n]);
      EdgesOfUpdate(ServicesById(services'[..n]), services'[n]);
      UpdateKeepsEdges(Edges(ServicesById(services[..n])), Edges(ServicesById(services'[..n])),
                       services[n].id, services[n].dependencyIds, services'[n].dependencyIds);
    }
  }

  lemma RelaxedStaysGood(s: Snapshot, s': Snapshot, at: Instant, id: Id)
    requires DistinctBy(s.services, ServiceKey) && Relaxes(s, s')
    requires Good(DirectAt(s, at), id)
    ensures Good(DirectAt(s', at), id)
  {
    var x := GoodIsActive(s, at, id);
    GoodExact(s, at, x);
    var chains, chains' := ChainsById(s.chains), ChainsById(s'.chains);
    var ids := SortedUnique([x.chainId] + s.config.candidateChainIds);
    var c :| c in ids
      && UsableId(x, chains[x.chainId].leafSubject, at, ActiveAnchors(s.config, at), chains, c);
    WiderTables(s.chains, s'.chains);
    var i :| 0 <= i < |s.services| && s.services[i] == x;
    var x' := s'.services[i];
    assert MoreTrust(x, x') && WiderWindow(chains[c], chains'[c]);
    assert WiderWindow(chains[x.chainId], chains'[x.chainId]);
    assert c in SortedUnique([x'.chainId] + s'.config.candidateChainIds);
    assert UsableId(x', chains'[x.chainId].leafSubject, at, ActiveAnchors(s'.config, at), chains', c);
    RelaxedIdsDistinct(s, s');
    GoodExact(s', at, x');
  }

  lemma RelaxedIdsDistinct(s: Snapshot, s': Snapshot)
    requires DistinctBy(s.services, ServiceKey) && Relaxes(s, s')
    ensures DistinctBy(s'.services, ServiceKey)
    ensures forall id :: ActiveIn(s.services, id) <==> ActiveIn(s'.services, id)
  {
  }

  lemma RelaxedStaysReachable(s: Snapshot, s': Snapshot, id: Id, t: Instant)
    requires DistinctBy(s.services, ServiceKey) && Relaxes(s, s') && ReachableAt(s, t, id)
    ensures ReachableAt(s', t, id)
  {
    var g := GraphOf(s);
    SameEdges(s.services, s'.services);
    ResolveExact(DirectAt(s, t), g, id);
    ResolveExact(DirectAt(s', t), g, id);
    forall p | IsPath(g, p) && p[0] == id ensures Good(DirectAt(s', t), p[|p| - 1]) {
      RelaxedStaysGood(s, s', t, p[|p| - 1]);
    }
  }

  lemma RelaxedStaysAccepted(s: Snapshot, s': Snapshot)
    requires Accepts(s) && Relaxes(s, s')
    ensures Accepts(s')
  {
    SameEdges(s.services, s'.services);
  }

  /** Adding trusted anchors or candidates, or widening windows, never adds a failure. */
  lemma RelaxingNeverAddsFailures(s: Snapshot, s': Snapshot)
    requires Accepts(s) && DistinctBy(s.services, ServiceKey) && Relaxes(s, s')
    ensures Accepts(s')
    ensures forall id, t ::
      Affects(Simulation(s').affected, id, t) ==> Affects(Simulation(s).affected, id, t)
  {
    RelaxedStaysAccepted(s, s');
    RelaxedIdsDistinct(s, s');
    assert GeneratedTimes(s'.config) == GeneratedTimes(s.config);
    AffectedRowsFail(s);
    AffectedRowsFail(s');
    forall id, t | FailsAt(s', id, t) ensures FailsAt(s, id, t) {
      if ReachableAt(s, t, id) {
        RelaxedStaysReachable(s, s', id, t);
      }
    }
  }

  lemma {:induction false} ScanIgnoresDependencies(x: ServiceSnapshot, x': ServiceSnapshot,
      leaf: string, at: Instant, active: set<Id>, chains: ChainTable, ids: seq<Id>,
      rejections: seq<Rejection>)
    requires MoreDependencies(x, x')
    ensures Scan(x, leaf, at, active, chains, ids, rejections)
         == Scan(x', leaf, at, active, chains, ids, rejections)
  {
    if ids != [] {
      if ids[0] !in chains || chains[ids[0]].leafSubject != leaf {
        ScanIgnoresDependencies(x, x', leaf, at, active, chains, ids[1..], rejections);
      } else {
        match Refusal(x, chains[ids[0]], at, active)
        case Some(why) =>
          ScanIgnoresDependencies(x, x', leaf, at, active, chains, ids[1..], rejections + [why]);
        case None =>
      }
    }
  }

  lemma {:induction false} DirectIgnoresDependencies(services: seq<ServiceSnapshot>,
      services': seq<ServiceSnapshot>, at: Instant, active: set<Id>, candidates: seq<Id>,
      chains: ChainTable)
    requires |services'| == |services|
    requires forall i :: 0 <= i < |services| ==> MoreDependencies(services[i], services'[i])
    ensures DirectOver(services, at, active, candidates, chains)
         == DirectOver(services', at, active, candidates, chains)
  {
    if services != [] {
      var n := |services| - 1;
      DirectIgnoresDependencies(services[..n], services'[..n], at, active, candidates, chains);
      var x, x' := services[n], services'[n];
      assert MoreDependencies(x, x');
      if x.chainId in chains {
        ScanIgnoresDependencies(x, x', chains[x.chainId].leafSubject, at, active, chains,
                                SortedUnique([x.chainId] + candidates), []);
      }
    }
  }

  lemma FewerDependenciesStayReachable(s: Snapshot, s': Snapshot, id: Id, t: Instant)
    requires AddsDependencies(s, s') && ReachableAt(s', t, id)
    ensures ReachableAt(s, t, id)
  {
    var g, g' := GraphOf(s), GraphOf(s');
    MoreEdges(s.services, s'.services);
    CyclesCarryOver(g, g');
    DirectIgnoresDependencies(s.services, s'.services, t, ActiveAnchors(s.config, t),
                              s.config.candidateChainIds, ChainsById(s.chains));
    ResolveExact(DirectAt(s, t), g, id);
    ResolveExact(DirectAt(s', t), g', id);
    forall p | IsPath(g, p) && p[0] == id
      ensures Good(DirectAt(s, t), p[|p| - 1]) && !OnCycle(g, p[|p| - 1])
    {
      PathCarriesOver(g, g', p);
    }
  }

  lemma SameActiveDependencies(s: Snapshot, s': Snapshot)
    requires DistinctBy(s.services, ServiceKey) && AddsDependencies(s, s')
    ensures forall id :: ActiveIn(s.services, id) <==> ActiveIn(s'.services, id)
  {
  }

  /** Adding dependencies to a snapshot that stays accepted never removes a failure. */
  lemma DependenciesNeverRemoveFailures(s: Snapshot, s': Snapshot)
    requires Accepts(s') && DistinctBy(s.services, ServiceKey) && AddsDependencies(s, s')
    ensures Accepts(s)
    ensures forall id, t ::
      Affects(Simulation(s).affected, id, t) ==> Affects(Simulation(s').affected, id, t)
  {
    MoreEdges(s.services, s'.services);
    CyclesCarryOver(GraphOf(s), GraphOf(s'));
    SameActiveDependencies(s, s');
    AffectedRowsFail(s);
    AffectedRowsFail(s');
    forall id, t | FailsAt(s, id, t) ensures FailsAt(s', id, t) {
      if ReachableAt(s', t, id) {
        FewerDependenciesStayReachable(s, s', id, t);
      }
    }
  }

  // --- What the simulation does not look at ---

  /** Only the ids of the anchors matter: their windows, states and revocations are not read. */
  lemma AnchorLifecycleIsIgnored(s: Snapshot, anchors: seq<AnchorSnapshot>)
    requires Accepts(s)
    requires forall a :: a in s.anchors ==> exists b :: b in anchors && b.id == a.id
    ensures Accepts(s.(anchors := anchors))
    ensures Simulation(s.(anchors := anchors)) == Simulation(s)
  {
    ReportIgnoresAnchors(s, anchors, CriticalTimes(s.config));
  }

  lemma {:induction false} ReportIgnoresAnchors(s: Snapshot, anchors: seq<AnchorSnapshot>,
                                                points: seq<Instant>)
    ensures ReportOver(s.(anchors := anchors), points) == ReportOver(s, points)
  {
    if points != [] {
      ReportIgnoresAnchors(s, anchors, points[..|points| - 1]);
    }
  }
}
