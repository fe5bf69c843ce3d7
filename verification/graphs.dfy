/** Dependency graphs: paths, cycles and closedness. */
module Graphs {
  import opened Snapshots

  type Graph = map<Id, seq<Id>>

  function Next(g: Graph, x: Id): seq<Id> {
    if x in g then g[x] else []
  }

  ghost predicate IsPath(g: Graph, p: seq<Id>) {
    p != [] && forall i :: 0 <= i < |p| - 1 ==> p[i + 1] in Next(g, p[i])
  }

  ghost predicate PathBetween(g: Graph, p: seq<Id>, x: Id, y: Id) {
    IsPath(g, p) && p[0] == x && p[|p| - 1] == y
  }

  /** x reaches itself by a non-empty path. */
  ghost predicate OnCycle(g: Graph, x: Id) {
    exists p :: PathBetween(g, p, x, x) && |p| >= 2
  }

  ghost predicate Acyclic(g: Graph) {
    forall x :: !OnCycle(g, x)
  }

  /** Every edge leads to a node of the graph. */
  ghost predicate Closed(g: Graph) {
    forall x, y :: x in g && y in g[x] ==> y in g
  }

  ghost predicate NoRepeats(p: seq<Id>) {
    forall i, j :: 0 <= i < j < |p| ==> p[i] != p[j]
  }

  /** h has every edge of g. */
  ghost predicate HasEdgesOf(h: Graph, g: Graph) {
    forall x, y :: y in Next(g, x) ==> y in Next(h, x)
  }

  lemma PathCarriesOver(g: Graph, h: Graph, p: seq<Id>)
    requires HasEdgesOf(h, g) && IsPath(g, p)
    ensures IsPath(h, p)
  {
  }

  lemma CyclesCarryOver(g: Graph, h: Graph)
    requires HasEdgesOf(h, g)
    ensures forall x :: OnCycle(g, x) ==> OnCycle(h, x)
  {
  }

  lemma PathsJoin(g: Graph, p: seq<Id>, q: seq<Id>)
    requires IsPath(g, p) && IsPath(g, q) && p[|p| - 1] == q[0]
    ensures IsPath(g, p + q[1..])
    ensures (p + q[1..])[|p + q[1..]| - 1] == q[|q| - 1]
  {
  }

  /** A repeated node on a path lies on a cycle. */
  lemma RepeatIsCycle(g: Graph, p: seq<Id>, i: nat, j: nat)
    requires IsPath(g, p) && i < j < |p| && p[i] == p[j]
    ensures OnCycle(g, p[i])
  {
    assert PathBetween(g, p[i..j + 1], p[i], p[i]);
  }

  lemma SelfLoopIsCycle(g: Graph, x: Id)
    requires x in Next(g, x)
    ensures OnCycle(g, x)
  {
    assert PathBetween(g, [x, x], x, x);
  }

  lemma AcyclicPathsDoNotRepeat(g: Graph, p: seq<Id>)
    requires Acyclic(g) && IsPath(g, p)
    ensures NoRepeats(p)
  {
    forall i, j | 0 <= i < j < |p| ensures p[i] != p[j] {
      if p[i] == p[j] {
        RepeatIsCycle(g, p, i, j);
        assert false;
      }
    }
  }

  /** A new node nobody points at adds no cycle to a closed graph. */
  lemma FreshNodeAddsNoCycle(g: Graph, x: Id, targets: seq<Id>)
    requires Closed(g) && x !in g
    requires forall y :: y in targets ==> y in g
    ensures Closed(g[x := targets])
    ensures Acyclic(g) ==> Acyclic(g[x := targets])
  {
    var h := g[x := targets];
    forall z | OnCycle(h, z) ensures OnCycle(g, z) {
      var p :| PathBetween(h, p, z, z) && |p| >= 2;
      forall i | 1 <= i < |p| ensures p[i] in g {
        assert p[i - 1 + 1] in Next(h, p[i - 1]);
      }
      assert PathBetween(g, p, z, z);
    }
  }

  // --- Topological orders ---

  /** Every successor of a listed node is listed before it. */
  ghost predicate SuccessorsFirst(g: Graph, order: seq<Id>) {
    NoRepeats(order) &&
    forall i, y :: 0 <= i < |order| && y in Next(g, order[i]) ==> y in order[..i]
  }

  lemma {:induction false} PathsDescend(g: Graph, order: seq<Id>, p: seq<Id>, i: nat)
    requires SuccessorsFirst(g, order) && IsPath(g, p) && |p| >= 2
    requires i < |order| && p[0] == order[i]
    ensures p[|p| - 1] in order[..i]
    decreases |p|
  {
    assert p[1] in order[..i];
    if |p| > 2 {
      var j :| 0 <= j < i && order[j] == p[1];
      PathsDescend(g, order, p[1..], j);
    }
  }

  lemma OrderedGraphIsAcyclic(g: Graph, order: seq<Id>)
    requires SuccessorsFirst(g, order)
    requires forall x :: x in g ==> x in order
    ensures Acyclic(g)
  {
    forall x ensures !OnCycle(g, x) {
      if OnCycle(g, x) {
        var p :| PathBetween(g, p, x, x) && |p| >= 2;
        assert p[0 + 1] in Next(g, p[0]);
        var i :| 0 <= i < |order| && order[i] == x;
        PathsDescend(g, order, p, i);
        assert false;
      }
    }
  }
}
