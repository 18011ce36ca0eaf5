// internal/resolver/cycle.go: the three-colour depth-first search that rejects circular
// dependencies. White nodes are absent from `colors`.
module Cycle {
  import opened Graphs

  datatype Color = Gray | Black

  /** The gray nodes are the current path, and the black ones are closed under dependencies:
      `finished`, the order in which nodes turned black, is a topological order. */
  ghost predicate Consistent<T>(graph: Graph<T>, colors: map<T, Color>, path: seq<T>, finished: seq<T>) {
    && NoDup(path)
    && (forall x :: x in path ==> x in colors && colors[x] == Gray)
    && (forall x :: x in finished ==> x in colors && colors[x] == Black)
    && (forall x :: x in colors ==> if colors[x] == Gray then x in path else x in finished)
    && (path != [] ==> Walk(graph, path))
    && Topological(graph, finished)
  }

  lemma PushKeeps<T>(graph: Graph<T>, colors: map<T, Color>, path: seq<T>, finished: seq<T>, node: T)
    requires Consistent(graph, colors, path, finished) && node !in colors
    requires path != [] ==> node in Deps(graph, path[|path| - 1])
    ensures Consistent(graph, colors[node := Gray], path + [node], finished)
  {
    assert node !in path;
    assert forall i :: 0 <= i < |path| ==> (path + [node])[i] == path[i];
  }

  lemma PopKeeps<T>(graph: Graph<T>, colors: map<T, Color>, path: seq<T>, finished: seq<T>, node: T)
    requires Consistent(graph, colors, path + [node], finished)
    requires forall d :: d in Deps(graph, node) ==> d in finished
    ensures Consistent(graph, colors[node := Black], path, finished + [node])
  {
    var full := path + [node];
    assert full[|path|] == node && forall i :: 0 <= i < |path| ==> full[i] == path[i];
    assert node !in finished && node !in path;
    var order := finished + [node];
    forall i, d | 0 <= i < |order| && d in Deps(graph, order[i]) ensures d in order[..i] {
      if i < |finished| {
        assert order[..i] == finished[..i];
      } else {
        assert order[..i] == finished;
      }
    }
  }

  lemma BackEdgeClosesCycle<T>(graph: Graph<T>, path: seq<T>, i: int)
    requires NoDup(path) && 0 <= i < |path| && Walk(graph, path) && path[i] in Deps(graph, path[|path| - 1])
    ensures SimpleCycle(graph, path[i..] + [path[i]])
  {
    var chain := path[i..] + [path[i]];
    forall k | 0 <= k < |chain| - 1 ensures chain[k + 1] in Deps(graph, chain[k]) {
      assert chain[k] == path[i + k];
      if k + 1 < |chain| - 1 {
        assert path[i + k + 1] in Deps(graph, path[i + k]);
      }
    }
  }

  class Detector<T(==, !new)> {
    const graph: Graph<T>
    var colors: map<T, Color>
    var path: seq<T>
    ghost var finished: seq<T>

    constructor (graph: Graph<T>)
      ensures Valid() && this.graph == graph && colors == map[] && path == [] && finished == []
    {
      this.graph := graph;
      colors, path, finished := map[], [], [];
    }

    ghost predicate Valid()
      reads this
    {
      Consistent(graph, colors, path, finished)
    }

    /** Turns a white node gray. */
    method Enter(node: T)
      requires Valid() && node !in colors
      requires path != [] ==> node in Deps(graph, path[|path| - 1])
      modifies this
      ensures Valid() && path == old(path) + [node] && colors == old(colors)[node := Gray] && finished == old(finished)
    {
      PushKeeps(graph, colors, path, finished, node);
      colors, path := colors[node := Gray], path + [node];
    }

    /** Turns the gray node at the end of the path black. */
    method Leave(node: T, ghost before: seq<T>)
      requires Valid() && path == before + [node] && forall d :: d in Deps(graph, node) ==> d in finished
      modifies this
      ensures Valid() && path == before && colors == old(colors)[node := Black] && finished == old(finished) + [node]
    {
      PopKeeps(graph, colors, before, finished, node);
      colors, path, finished := colors[node := Black], path[..|path| - 1], finished + [node];
    }

    /** The edge from the end of the path back to a gray node closes a cycle. */
    method ReportCycle(node: T, dep: T) returns (chain: seq<T>)
      requires Valid() && path != [] && path[|path| - 1] == node && dep in Deps(graph, node) && dep in path
      ensures SimpleCycle(graph, chain) && chain[0] == dep
    {
      chain := CycleError(path, dep);
      ghost var k :| 0 <= k < |path| && path[k] == dep && chain == path[k..] + [dep];
      BackEdgeClosesCycle(graph, path, k);
    }

    method Visit(node: T, ghost universe: set<T>) returns (err: Option<seq<T>>)
      requires Valid() && node !in colors
      requires colors.Keys <= universe && node in universe && ClosedUnder(graph, universe)
      requires path != [] ==> node in Deps(graph, path[|path| - 1])
      modifies this
      ensures err.None? ==> Valid() && path == old(path) && node in finished
      ensures err.None? ==>
                (forall x :: x in old(finished) ==> x in finished) && old(colors.Keys) <= colors.Keys <= universe
      ensures err.Some? ==> SimpleCycle(graph, err.value)
      decreases universe - colors.Keys
    {
      ghost var before := path;
      Enter(node);
      var deps := Deps(graph, node);
      for i := 0 to |deps|
        invariant Valid() && path == before + [node]
        invariant (forall x :: x in old(finished) ==> x in finished)
                    && old(colors.Keys) + {node} <= colors.Keys <= universe
        invariant forall k :: 0 <= k < i ==> deps[k] in finished
      {
        var dep := deps[i];
        assert path[|path| - 1] == node;
        if dep in colors && colors[dep] == Gray {
          var chain := ReportCycle(node, dep);
          return Some(chain);
        } else if dep !in colors {
          assert node in (universe - old(colors.Keys)) - (universe - colors.Keys);
          var e := Visit(dep, universe);
          if e.Some? {
            return e;
          }
        }
      }
      Leave(node, before);
      return None;
    }
  }

  /** Cuts the path at the first occurrence of the target and repeats the target at the end.
      A target that is not on the path leaves the whole path, as the source's zero default
      does. */
  method CycleError<T(==)>(path: seq<T>, target: T) returns (chain: seq<T>)
    ensures target !in path ==> chain == path + [target]
    ensures target in path ==>
              exists i :: 0 <= i < |path| && path[i] == target && target !in path[..i] && chain == path[i..] + [target]
  {
    var start := 0;
    for i := 0 to |path|
      invariant start == 0
      invariant target !in path[..i]
    {
      if path[i] == target {
        start := i;
        break;
      }
    }
    chain := path[start..] + [target];
    assert target in path ==> path[start] == target && target !in path[..start];
  }

  /** Nil exactly on acyclic graphs; the reported chain is a simple cycle of real edges; and
      an accepted graph has a topological order, which the resolution stage relies on. */
  method DetectCycle<T(==, !new)>(graph: Graph<T>) returns (err: Option<seq<T>>, ghost order: seq<T>)
    ensures err.None? <==> !Cyclic(graph)
    ensures err.Some? ==> SimpleCycle(graph, err.value)
    ensures err.None? ==> Topological(graph, order) && graph.Keys <= Elems(order)
  {
    order := [];
    ghost var universe := graph.Keys + set k, x | k in graph && x in graph[k] :: x;
    var d := new Detector(graph);
    var todo := graph.Keys;
    while todo != {}
      invariant d.Valid() && d.path == [] && d.graph == graph && d.colors.Keys <= universe
      invariant todo <= graph.Keys && forall x :: x in graph && x !in todo ==> x in d.finished
      decreases todo
    {
      var node :| node in todo;
      todo := todo - {node};
      if node !in d.colors {
        err := d.Visit(node, universe);
        if err.Some? {
          return;
        }
      }
      assert node in d.finished;
    }
    order := d.finished;
    TopologicalIsAcyclic(graph, order);
    return None, order;
  }
}
