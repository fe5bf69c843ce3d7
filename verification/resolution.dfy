/**
 Failure propagation: a service is reachable when its own chain is and all it depends on are.
 The recursion carries the services being visited and the path walked so far.
 */
module Resolution {
  import opened Graphs
  import opened Snapshots
  import opened TrustPaths

  type DirectTable = map<Id, Evidence>

  function Edges(services: map<Id, ServiceSnapshot>): Graph {
    map id | id in services :: services[id].dependencyIds
  }

  function AbsentEvidence(id: Id): Evidence {
    Evidence(id, "", false, 0, 0, AbsentOrInactive)
  }

  function Resolve(direct: DirectTable, g: Graph, visiting: set<Id>, id: Id, path: seq<Id>)
    : (r: (Evidence, seq<Id>))
    decreases direct.Keys - visiting, 0
  {
    if id !in direct then (AbsentEvidence(id), path + [id])
    else if id in visiting then
      (direct[id].(reachable := false, reason := CycleEncountered), path + [id])
    else if !direct[id].reachable then (direct[id], path + [id])
    else ResolveAll(direct, g, visiting + {id}, direct[id], Next(g, id), path + [id])
  }

  function ResolveAll(direct: DirectTable, g: Graph, visiting: set<Id>, item: Evidence,
                      dependencies: seq<Id>, path: seq<Id>): (r: (Evidence, seq<Id>))
    decreases direct.Keys - visiting, 1 + |dependencies|
  {
    if dependencies == [] then (item, path)
    else
      var (dependency, broken) := Resolve(direct, g, visiting, dependencies[0], path);
      if !dependency.reachable then
        (item.(reachable := false, reason := Upstream(dependency.serviceCode, dependency.reason)),
         broken)
      else ResolveAll(direct, g, visiting, item, dependencies[1..], path)
  }

  /** The recursion of the simulator, which marks and unmarks the services it is visiting. */
  class Resolver {
    const direct: DirectTable
    const services: map<Id, ServiceSnapshot>
    var visiting: set<Id>

    constructor (direct: DirectTable, services: map<Id, ServiceSnapshot>)
      ensures this.direct == direct && this.services == services && visiting == {}
    {
      this.direct, this.services, visiting := direct, services, {};
    }

    method ResolveService(id: Id, path: seq<Id>) returns (item: Evidence, broken: seq<Id>)
      modifies this
      ensures visiting == old(visiting)
      ensures (item, broken) == Resolve(direct, Edges(services), old(visiting), id, path)
      decreases direct.Keys - visiting
    {
      if id !in direct {
        return AbsentEvidence(id), path + [id];
      }
      item := direct[id];
      var currentPath := path + [id];
      if id in visiting {
        return item.(reachable := false, reason := CycleEncountered), currentPath;
      }
      if !item.reachable {
        return item, currentPath;
      }
      visiting := visiting + {id};
      var dependencies := Next(Edges(services), id);
      for k := 0 to |dependencies|
        invariant visiting == old(visiting) + {id}
        invariant Resolve(direct, Edges(services), old(visiting), id, path)
               == ResolveAll(direct, Edges(services), visiting, item, dependencies[k..], currentPath)
      {
        var dependency, brokenPath := ResolveService(dependencies[k], currentPath);
        if !dependency.reachable {
          visiting := visiting - {id};
          return item.(reachable := false,
                       reason := Upstream(dependency.serviceCode, dependency.reason)), brokenPath;
        }
      }
      visiting := visiting - {id};
      return item, currentPath;
    }
  }

  // --- The dependency closure, independent of the recursion ---

  ghost predicate Good(direct: DirectTable, id: Id) {
    id in direct && direct[id].reachable
  }

  /** Everything the service reaches, itself included, is active and directly reachable. */
  ghost predicate ClosureGood(direct: DirectTable, g: Graph, id: Id) {
    forall p :: IsPath(g, p) && p[0] == id ==> Good(direct, p[|p| - 1])
  }

  ghost predicate ClosureAcyclic(g: Graph, id: Id) {
    forall p :: IsPath(g, p) && p[0] == id ==> !OnCycle(g, p[|p| - 1])
  }

  ghost predicate ResolvesWell(direct: DirectTable, g: Graph, visiting: set<Id>, id: Id) {
    Resolve(direct, g, visiting, id, []).0.reachable
  }

  /** The path argument is only prepended to the path that comes back. */
  lemma {:induction false} PathIsPrepended(direct: DirectTable, g: Graph, visiting: set<Id>,
                                           id: Id, path: seq<Id>)
    ensures var r, s := Resolve(direct, g, visiting, id, path), Resolve(direct, g, visiting, id, []);
      r.0 == s.0 && r.1 == path + s.1
    decreases direct.Keys - visiting, 0
  {
    assert [] + [id] == [id];
    if id in direct && id !in visiting && direct[id].reachable {
      PathIsPrependedToAll(direct, g, visiting + {id}, direct[id], Next(g, id), path, [id]);
    }
  }

  lemma {:induction false} PathIsPrependedToAll(direct: DirectTable, g: Graph, visiting: set<Id>,
      item: Evidence, dependencies: seq<Id>, path: seq<Id>, tail: seq<Id>)
    ensures var r, s := ResolveAll(direct, g, visiting, item, dependencies, path + tail),
                        ResolveAll(direct, g, visiting, item, dependencies, tail);
      r.0 == s.0 && r.1 == path + s.1
    decreases direct.Keys - visiting, 1 + |dependencies|
  {
    if dependencies != [] {
      PathIsPrepended(direct, g, visiting, dependencies[0], path + tail);
      PathIsPrepended(direct, g, visiting, dependencies[0], tail);
      PathIsPrependedToAll(direct, g, visiting, item, dependencies[1..], path, tail);
    }
  }

  lemma {:induction false} EveryDependencyResolves(direct: DirectTable, g: Graph,
      visiting: set<Id>, item: Evidence, dependencies: seq<Id>, path: seq<Id>)
    requires ResolveAll(direct, g, visiting, item, dependencies, path).0.reachable
    ensures forall d :: d in dependencies ==> ResolvesWell(direct, g, visiting, d)
  {
    if dependencies != [] {
      PathIsPrepended(direct, g, visiting, dependencies[0], path);
      EveryDependencyResolves(direct, g, visiting, item, dependencies[1..], path);
    }
  }

  /** When a service resolves, every path from it runs over good services and never repeats. */
  lemma {:induction false} ResolvedPathsAreGood(direct: DirectTable, g: Graph, visiting: set<Id>,
                                                id: Id, p: seq<Id>)
    requires ResolvesWell(direct, g, visiting, id)
    requires IsPath(g, p) && p[0] == id
    ensures forall x :: x in p ==> Good(direct, x) && x !in visiting
    ensures NoRepeats(p)
    decreases |p|
  {
    if |p| > 1 {
      assert [] + [id] == [id];
      EveryDependencyResolves(direct, g, visiting + {id}, direct[id], Next(g, id), [id]);
      assert p[0 + 1] in Next(g, p[0]);
      ResolvedPathsAreGood(direct, g, visiting + {id}, p[1], p[1..]);
      assert p == [id] + p[1..];
    }
  }

  // --- Witnesses of failure ---

  function CodeOf(direct: DirectTable, id: Id): string {
    if id in direct then direct[id].serviceCode else ""
  }

  /** Why the last service of a witness fails. */
  function OwnReason(direct: DirectTable, visited: set<Id>, id: Id): Reason {
    if id !in direct then AbsentOrInactive
    else if id in visited then CycleEncountered
    else direct[id].reason
  }

  /** The reason told along a path: nested upstream failures ending in the last service's own. */
  function Told(direct: DirectTable, visited: set<Id>, w: seq<Id>): Reason
    requires w != []
    decreases |w|
  {
    if |w| == 1 then OwnReason(direct, visited, w[0])
    else Upstream(CodeOf(direct, w[1]), Told(direct, visited + {w[0]}, w[1..]))
  }

  /** y is a dependency of x, and all those listed before it have a good closure. */
  ghost predicate FirstSuspect(direct: DirectTable, g: Graph, x: Id, y: Id) {
    exists k :: 0 <= k < |Next(g, x)| && Next(g, x)[k] == y
             && forall j :: 0 <= j < k ==> ClosureGood(direct, g, Next(g, x)[j])
  }

  ghost predicate Witness(direct: DirectTable, g: Graph, visiting: set<Id>, id: Id, w: seq<Id>) {
    && IsPath(g, w) && w[0] == id
    && (forall i :: 0 <= i < |w| - 1 ==> Good(direct, w[i]) && w[i] !in visiting)
    && NoRepeats(w[..|w| - 1])
    && (Good(direct, w[|w| - 1]) ==> w[|w| - 1] in visiting || w[|w| - 1] in w[..|w| - 1])
    && (forall i :: 0 <= i < |w| - 1 ==> FirstSuspect(direct, g, w[i], w[i + 1]))
  }

  lemma ResolvedClosureIsGood(direct: DirectTable, g: Graph, visiting: set<Id>, id: Id)
    requires ResolvesWell(direct, g, visiting, id)
    ensures ClosureGood(direct, g, id)
  {
    forall p | IsPath(g, p) && p[0] == id ensures Good(direct, p[|p| - 1]) {
      ResolvedPathsAreGood(direct, g, visiting, id, p);
    }
  }

  lemma {:induction false} FirstFailure(direct: DirectTable, g: Graph, visiting: set<Id>,
      item: Evidence, dependencies: seq<Id>, path: seq<Id>)
    returns (k: nat)
    requires item.reachable && !ResolveAll(direct, g, visiting, item, dependencies, path).0.reachable
    ensures k < |dependencies| && !ResolvesWell(direct, g, visiting, dependencies[k])
    ensures forall j :: 0 <= j < k ==> ResolvesWell(direct, g, visiting, dependencies[j])
    ensures var (dependency, broken) := Resolve(direct, g, visiting, dependencies[k], path);
      ResolveAll(direct, g, visiting, item, dependencies, path) ==
      (item.(reachable := false, reason := Upstream(dependency.serviceCode, dependency.reason)),
       broken)
  {
    PathIsPrepended(direct, g, visiting, dependencies[0], path);
    if Resolve(direct, g, visiting, dependencies[0], path).0.reachable {
      var rest := FirstFailure(direct, g, visiting, item, dependencies[1..], path);
      k := rest + 1;
    } else {
      k := 0;
    }
  }

  /** Propagation only ever lowers the verdict and rewrites the reason; all else is the service's own. */
  lemma {:induction false} ResolvedItem(direct: DirectTable, g: Graph, visiting: set<Id>, id: Id)
    ensures var item := Resolve(direct, g, visiting, id, []).0;
      && item.serviceCode == CodeOf(direct, id)
      && (item.reachable ==> id in direct && item == direct[id])
      && (id in direct ==> item == direct[id].(reachable := item.reachable, reason := item.reason))
      && (id !in direct ==> item == Evidence(id, "", false, 0, 0, AbsentOrInactive))
  {
    if id in direct && id !in visiting && direct[id].reachable {
      ResolvedItemOfAll(direct, g, visiting + {id}, direct[id], Next(g, id), [] + [id]);
    }
  }

  lemma {:induction false} ResolvedItemOfAll(direct: DirectTable, g: Graph, visiting: set<Id>,
      item: Evidence, dependencies: seq<Id>, path: seq<Id>)
    ensures var r := ResolveAll(direct, g, visiting, item, dependencies, path).0;
      r == item.(reachable := r.reachable, reason := r.reason) && (r.reachable ==> r == item)
  {
    if dependencies != [] {
      ResolvedItemOfAll(direct, g, visiting, item, dependencies[1..], path);
    }
  }

  lemma FailureStep(direct: DirectTable, g: Graph, visiting: set<Id>, id: Id) returns (y: Id)
    requires Good(direct, id) && id !in visiting && !ResolvesWell(direct, g, visiting, id)
    ensures FirstSuspect(direct, g, id, y) && !ResolvesWell(direct, g, visiting + {id}, y)
    ensures var (item, w), (cause, v) :=
        Resolve(direct, g, visiting, id, []), Resolve(direct, g, visiting + {id}, y, []);
      w == [id] + v && item.reason == Upstream(CodeOf(direct, y), cause.reason)
  {
    var inner, deps := visiting + {id}, Next(g, id);
    assert [] + [id] == [id];
    var k := FirstFailure(direct, g, inner, direct[id], deps, [id]);
    y := deps[k];
    PathIsPrepended(direct, g, inner, y, [id]);
    ResolvedItem(direct, g, inner, y);
    forall j | 0 <= j < k ensures ClosureGood(direct, g, deps[j]) {
      ResolvedClosureIsGood(direct, g, inner, deps[j]);
    }
  }

  lemma OwnFailure(direct: DirectTable, g: Graph, visiting: set<Id>, id: Id)
    requires !Good(direct, id) || id in visiting
    ensures var (item, w) := Resolve(direct, g, visiting, id, []);
      w == [id] && Witness(direct, g, visiting, id, w) && item.reason == Told(direct, visiting, w)
  {
    assert [] + [id] == [id];
  }

  /** The path that comes back with a failure is a witness of it, and the reason tells that path. */
  lemma {:induction false} FailureHasWitness(direct: DirectTable, g: Graph, visiting: set<Id>, id: Id)
    requires !ResolvesWell(direct, g, visiting, id)
    ensures var (item, w) := Resolve(direct, g, visiting, id, []);
      Witness(direct, g, visiting, id, w) && item.reason == Told(direct, visiting, w)
    decreases direct.Keys - visiting
  {
    if Good(direct, id) && id !in visiting {
      var y := FailureStep(direct, g, visiting, id);
      var v := Resolve(direct, g, visiting + {id}, y, []).1;
      FailureHasWitness(direct, g, visiting + {id}, y);
      ExtendWitness(direct, g, visiting, id, v);
      assert ([id] + v)[1..] == v;
    } else {
      OwnFailure(direct, g, visiting, id);
    }
  }

  lemma ExtendWitness(direct: DirectTable, g: Graph, visiting: set<Id>, id: Id, v: seq<Id>)
    requires v != [] && Witness(direct, g, visiting + {id}, v[0], v)
    requires Good(direct, id) && id !in visiting && v[0] in Next(g, id)
    requires FirstSuspect(direct, g, id, v[0])
    ensures Witness(direct, g, visiting, id, [id] + v)
  {
    var w := [id] + v;
    assert w[..|w| - 1] == [id] + v[..|v| - 1];
    forall i | 0 <= i < |w| - 1
      ensures w[i + 1] in Next(g, w[i]) && FirstSuspect(direct, g, w[i], w[i + 1])
      ensures Good(direct, w[i]) && w[i] !in visiting
    {
      if i > 0 {
        assert w[i] == v[i - 1] && w[i + 1] == v[i - 1 + 1];
      }
    }
    var last := v[|v| - 1];
    assert w[|w| - 1] == last;
    assert last == id ==> last in w[..|w| - 1];
    assert last in v[..|v| - 1] ==> last in w[..|w| - 1];
  }

  // --- Exactness ---

  /**
   A service is reported reachable exactly when its whole closure is active and directly reachable
   and contains no cycle.
   */
  lemma ResolveExact(direct: DirectTable, g: Graph, id: Id)
    ensures ResolvesWell(direct, g, {}, id) <==> ClosureGood(direct, g, id) && ClosureAcyclic(g, id)
  {
    if ResolvesWell(direct, g, {}, id) {
      ResolvedClosureIsGood(direct, g, {}, id);
      forall p | IsPath(g, p) && p[0] == id ensures !OnCycle(g, p[|p| - 1]) {
        if OnCycle(g, p[|p| - 1]) {
          var c :| PathBetween(g, c, p[|p| - 1], p[|p| - 1]) && |c| >= 2;
          var q := p + c[1..];
          PathsJoin(g, p, c);
          assert q[|p| - 1] == q[|q| - 1];
          ResolvedPathsAreGood(direct, g, {}, id, q);
          assert false;
        }
      }
    } else if ClosureGood(direct, g, id) {
      FailureHasWitness(direct, g, {}, id);
      var w := Resolve(direct, g, {}, id, []).1;
      var last := |w| - 1;
      assert Good(direct, w[last]);
      var i :| 0 <= i < last && w[i] == w[last];
      RepeatIsCycle(g, w, i, last);
      assert IsPath(g, w[..i + 1]) && w[..i + 1][0] == id && w[..i + 1][i] == w[i];
    }
  }

  /** On an acyclic graph the witness ends at a service that fails by itself. */
  lemma AcyclicWitness(direct: DirectTable, g: Graph, id: Id)
    requires Acyclic(g) && !ResolvesWell(direct, g, {}, id)
    ensures var (item, w) := Resolve(direct, g, {}, id, []);
      && IsPath(g, w) && w[0] == id && NoRepeats(w)
      && (forall i :: 0 <= i < |w| - 1 ==> Good(direct, w[i]))
      && !Good(direct, w[|w| - 1])
      && (forall i :: 0 <= i < |w| - 1 ==> FirstSuspect(direct, g, w[i], w[i + 1]))
      && (forall x :: x in w ==> !ClosureGood(direct, g, x))
      && item.reason == Told(direct, {}, w)
  {
    FailureHasWitness(direct, g, {}, id);
    var w := Resolve(direct, g, {}, id, []).1;
    AcyclicPathsDoNotRepeat(g, w);
    assert w[|w| - 1] !in w[..|w| - 1];
    forall x | x in w ensures !ClosureGood(direct, g, x) {
      var i :| 0 <= i < |w| && w[i] == x;
      WitnessSuffix(g, w, i);
    }
  }

  lemma WitnessSuffix(g: Graph, w: seq<Id>, i: nat)
    requires IsPath(g, w) && i < |w|
    ensures IsPath(g, w[i..]) && w[i..][0] == w[i] && w[i..][|w[i..]| - 1] == w[|w| - 1]
  {
  }

  /** The reason at the bottom of a chain of upstream failures. */
  function RootCause(reason: Reason): Reason {
    match reason
    case Upstream(_, cause) => RootCause(cause)
    case _ => reason
  }

  lemma {:induction false} ToldRootCause(direct: DirectTable, visited: set<Id>, w: seq<Id>)
    requires w != [] && NoRepeats(w) && (forall x :: x in w ==> x !in visited)
    requires w[|w| - 1] in direct ==> !direct[w[|w| - 1]].reason.Upstream?
    ensures RootCause(Told(direct, visited, w))
         == if w[|w| - 1] in direct then direct[w[|w| - 1]].reason else AbsentOrInactive
    decreases |w|
  {
    if |w| > 1 {
      assert forall x :: x in w[1..] ==> x in w && x != w[0];
      ToldRootCause(direct, visited + {w[0]}, w[1..]);
    }
  }

  /** On an acyclic graph the cycle branch of the recursion is never taken. */
  lemma CycleBranchNeverTaken(direct: DirectTable, g: Graph, id: Id)
    requires Acyclic(g)
    requires forall x :: x in direct ==>
      !direct[x].reason.Upstream? && !direct[x].reason.CycleEncountered?
    ensures RootCause(Resolve(direct, g, {}, id, []).0.reason) != CycleEncountered
  {
    if ResolvesWell(direct, g, {}, id) {
      ResolvedItem(direct, g, {}, id);
    } else {
      AcyclicWitness(direct, g, id);
      ToldRootCause(direct, {}, Resolve(direct, g, {}, id, []).1);
    }
  }

  // --- Blame passes from a service to its first failing dependency ---

  ghost predicate Avoids(g: Graph, id: Id, visiting: set<Id>) {
    forall p :: IsPath(g, p) && p[0] == id ==> p[|p| - 1] !in visiting
  }

  lemma AvoidsNext(g: Graph, id: Id, d: Id, visiting: set<Id>)
    requires Acyclic(g) && Avoids(g, id, visiting) && d in Next(g, id)
    ensures Avoids(g, d, visiting + {id})
  {
    forall p | IsPath(g, p) && p[0] == d ensures p[|p| - 1] !in visiting + {id} {
      var q := [id] + p;
      assert IsPath(g, q) && q[|q| - 1] == p[|p| - 1];
      assert p[|p| - 1] != id by {
        assert !OnCycle(g, id) && !(PathBetween(g, q, id, id) && |q| >= 2);
      }
    }
  }

  /** On an acyclic graph the verdict on a service does not depend on how it was reached. */
  lemma {:induction false} SameVerdict(direct: DirectTable, g: Graph, visiting: set<Id>,
                                       other: set<Id>, id: Id, path: seq<Id>)
    requires Acyclic(g) && Avoids(g, id, visiting) && Avoids(g, id, other)
    ensures Resolve(direct, g, visiting, id, path) == Resolve(direct, g, other, id, path)
    decreases direct.Keys - visiting, 0
  {
    assert IsPath(g, [id]) && [id][|[id]| - 1] == id;
    if Good(direct, id) {
      forall d | d in Next(g, id)
        ensures Avoids(g, d, visiting + {id}) && Avoids(g, d, other + {id})
      {
        AvoidsNext(g, id, d, visiting);
        AvoidsNext(g, id, d, other);
      }
      SameVerdictOfAll(direct, g, visiting + {id}, other + {id}, direct[id], Next(g, id), path + [id]);
    }
  }

  lemma {:induction false} SameVerdictOfAll(direct: DirectTable, g: Graph, visiting: set<Id>,
      other: set<Id>, item: Evidence, dependencies: seq<Id>, path: seq<Id>)
    requires Acyclic(g)
    requires forall d :: d in dependencies ==> Avoids(g, d, visiting) && Avoids(g, d, other)
    ensures ResolveAll(direct, g, visiting, item, dependencies, path)
         == ResolveAll(direct, g, other, item, dependencies, path)
    decreases direct.Keys - visiting, 1 + |dependencies|
  {
    if dependencies != [] {
      SameVerdict(direct, g, visiting, other, dependencies[0], path);
      SameVerdictOfAll(direct, g, visiting, other, item, dependencies[1..], path);
    }
  }

  lemma NextVerdict(direct: DirectTable, g: Graph, id: Id, d: Id)
    requires Acyclic(g) && d in Next(g, id)
    ensures Resolve(direct, g, {} + {id}, d, []) == Resolve(direct, g, {}, d, [])
  {
    AvoidsNext(g, id, d, {});
    SameVerdict(direct, g, {} + {id}, {}, d, []);
  }

  /**
   On an acyclic graph a service that fails although its own chain works takes over the code, the
   reason and the broken path of its first unreachable dependency, and keeps all else of its evidence.
   */
  lemma BlameIsCompositional(direct: DirectTable, g: Graph, id: Id) returns (k: nat)
    requires Acyclic(g) && Good(direct, id) && !ResolvesWell(direct, g, {}, id)
    ensures k < |Next(g, id)| && !ResolvesWell(direct, g, {}, Next(g, id)[k])
    ensures forall j :: 0 <= j < k ==> ResolvesWell(direct, g, {}, Next(g, id)[j])
    ensures var (cause, broken) := Resolve(direct, g, {}, Next(g, id)[k], []);
      Resolve(direct, g, {}, id, [])
      == (direct[id].(reachable := false, reason := Upstream(cause.serviceCode, cause.reason)),
          [id] + broken)
  {
    var deps := Next(g, id);
    assert [] + [id] == [id];
    k := FirstFailure(direct, g, {} + {id}, direct[id], deps, [id]);
    PathIsPrepended(direct, g, {} + {id}, deps[k], [id]);
    forall j | 0 <= j <= k
      ensures Resolve(direct, g, {} + {id}, deps[j], []) == Resolve(direct, g, {}, deps[j], [])
    {
      NextVerdict(direct, g, id, deps[j]);
    }
  }
}
