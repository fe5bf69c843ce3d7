/**
 The three-colour depth-first search. The simulator and the service store each run it:
 the store's copy also rejects an edge whose target does not exist (strict).
 */
module CycleCheck {
  import opened Graphs
  import opened Outcomes
  import opened Snapshots

  datatype Fault = CycleAt(id: Id) | MissingTarget(id: Id)

  function Universe(g: Graph): set<Id> {
    g.Keys + set x, y | x in g && y in g[x] :: y
  }

  lemma TargetsInUniverse(g: Graph, x: Id)
    ensures forall y :: y in Next(g, x) ==> y in Universe(g)
  {
  }

  function Mark(state: map<Id, int>, id: Id): int {
    if id in state then state[id] else 0
  }

  /** The marks agree with the stack of open nodes and the list of finished ones. */
  ghost predicate Coloured(state: map<Id, int>, stack: seq<Id>, finished: seq<Id>) {
    && NoRepeats(stack)
    && (forall x :: x in state ==> state[x] == 1 || state[x] == 2)
    && (forall x :: x in stack <==> Mark(state, x) == 1)
    && (forall x :: x in finished <==> Mark(state, x) == 2)
  }

  ghost predicate Settled(g: Graph, strict: bool, finished: seq<Id>) {
    && SuccessorsFirst(g, finished)
    && (strict ==> forall x, y :: x in finished && y in Next(g, x) ==> y in g)
  }

  ghost predicate Justified(g: Graph, strict: bool, fault: Fault) {
    match fault
    case CycleAt(x) => OnCycle(g, x)
    case MissingTarget(y) => strict && y !in g && exists x :: x in g && y in g[x]
  }

  lemma OpenNode(state: map<Id, int>, stack: seq<Id>, finished: seq<Id>, id: Id)
    requires Coloured(state, stack, finished) && Mark(state, id) == 0
    ensures Coloured(state[id := 1], stack + [id], finished)
  {
  }

  lemma CloseNode(state: map<Id, int>, stack: seq<Id>, finished: seq<Id>, id: Id)
    requires Coloured(state, stack + [id], finished)
    ensures id in state
    ensures Coloured(state[id := 2], stack, finished + [id])
    ensures id !in finished
  {
    var all := stack + [id];
    assert all[|stack|] == id && id in all;
    assert stack == all[..|stack|];
    forall x ensures x in stack <==> x in all && x != id {
      if x in stack {
        var i :| 0 <= i < |stack| && stack[i] == x;
        assert all[i] == x;
      }
    }
    forall x ensures x in finished + [id] <==> Mark(state[id := 2], x) == 2 {
    }
  }

  lemma SettleNode(g: Graph, strict: bool, finished: seq<Id>, id: Id)
    requires Settled(g, strict, finished) && id !in finished
    requires forall y :: y in Next(g, id) ==> y in finished && (strict ==> y in g)
    ensures Settled(g, strict, finished + [id])
  {
    var order := finished + [id];
    forall i, y | 0 <= i < |order| && y in Next(g, order[i]) ensures y in order[..i] {
      if i < |finished| {
        assert y in finished[..i] && order[..i] == finished[..i];
      } else {
        assert order[..i] == finished;
      }
    }
  }

  lemma BackEdge(g: Graph, stack: seq<Id>, id: Id)
    requires IsPath(g, stack) && id in stack && id in Next(g, stack[|stack| - 1])
    ensures OnCycle(g, id)
  {
    var k :| 0 <= k < |stack| && stack[k] == id;
    assert PathBetween(g, stack[k..] + [id], id, id);
  }

  class DependencyWalk {
    const edges: Graph
    const strict: bool
    var state: map<Id, int>        // 1 while a node is being visited, 2 once it is done
    ghost var stack: seq<Id>       // the nodes being visited, outermost first
    ghost var finished: seq<Id>    // the done nodes in finishing order

    constructor (edges: Graph, strict: bool)
      ensures this.edges == edges && this.strict == strict
      ensures Valid() && stack == [] && finished == []
    {
      this.edges, this.strict := edges, strict;
      state, stack, finished := map[], [], [];
    }

    ghost predicate Valid()
      reads this
    {
      && state.Keys <= Universe(edges)
      && Coloured(state, stack, finished)
      && (stack != [] ==> IsPath(edges, stack))
      && Settled(edges, strict, finished)
    }

    method Visit(id: Id) returns (fault: Option<Fault>)
      requires Valid() && id in Universe(edges)
      requires stack != [] ==> id in Next(edges, stack[|stack| - 1])
      modifies this
      ensures fault.Some? ==> Justified(edges, strict, fault.value)
      ensures fault.None? ==> Valid() && stack == old(stack) && id in finished
      ensures fault.None? ==> old(finished) <= finished && old(state.Keys) <= state.Keys
      decreases Universe(edges) - state.Keys
    {
      if Mark(state, id) == 1 {
        BackEdge(edges, stack, id);
        return Some(CycleAt(id));
      }
      if Mark(state, id) == 2 {
        return None;
      }
      ghost var outer := stack;
      Open(id);
      var targets := Next(edges, id);
      for k := 0 to |targets|
        invariant Valid() && stack == outer + [id]
        invariant old(finished) <= finished && old(state.Keys) + {id} <= state.Keys
        invariant forall j :: 0 <= j < k ==> targets[j] in finished && (strict ==> targets[j] in edges)
      {
        if strict && targets[k] !in edges {
          return Some(MissingTarget(targets[k]));
        }
        fault := Visit(targets[k]);
        if fault.Some? {
          return fault;
        }
      }
      Finish(id, outer);
      return None;
    }

    method Open(id: Id)
      requires Valid() && Mark(state, id) == 0 && id in Universe(edges)
      requires stack != [] ==> id in Next(edges, stack[|stack| - 1])
      modifies this`state, this`stack
      ensures Valid() && state == old(state)[id := 1] && stack == old(stack) + [id]
      ensures forall y :: y in Next(edges, id) ==> y in Universe(edges)
    {
      OpenNode(state, stack, finished, id);
      TargetsInUniverse(edges, id);
      state, stack := state[id := 1], stack + [id];
    }

    method Finish(id: Id, ghost outer: seq<Id>)
      requires Valid() && stack == outer + [id]
      requires forall y :: y in Next(edges, id) ==> y in finished && (strict ==> y in edges)
      modifies this
      ensures Valid() && state == old(state)[id := 2] && stack == outer
      ensures finished == old(finished) + [id]
    {
      CloseNode(state, outer, finished, id);
      SettleNode(edges, strict, finished, id);
      assert outer != [] ==> IsPath(edges, outer) by {
        assert outer == stack[..|outer|];
      }
      state, stack, finished := state[id := 2], outer, finished + [id];
    }
  }

  /**
   The loop over all nodes, in whatever order the map yields them. The verdict does not depend
   on that order, only the node a fault names does.
   */
  method CheckGraph(edges: Graph, strict: bool) returns (fault: Option<Fault>)
    ensures fault.None? <==> Acyclic(edges) && (strict ==> Closed(edges))
    ensures fault.Some? ==> Justified(edges, strict, fault.value)
  {
    var walk := new DependencyWalk(edges, strict);
    var remaining := edges.Keys;
    while remaining != {}
      invariant walk.Valid() && walk.stack == []
      invariant walk.edges == edges && walk.strict == strict
      invariant forall x :: x in edges && x !in remaining ==> x in walk.finished
      decreases remaining
    {
      var id :| id in remaining;
      remaining := remaining - {id};
      fault := walk.Visit(id);
      if fault.Some? {
        return fault;
      }
    }
    OrderedGraphIsAcyclic(edges, walk.finished);
    assert strict ==> Closed(edges) by {
      assert forall x :: x in edges ==> Next(edges, x) == edges[x];
    }
    return None;
  }
}
