// From an assembled tree and its recorded injections to a resolution stage that can start:
// the first half of resolveGraph in internal/resolver/stage3.go.
module Bootstrapping {
  import opened Graphs
  import opened Modules
  import opened Resolver
  import Cycle
  import S = Stage3

  function MemberSlots(owner: Owner, iface: Type, members: seq<Provider>): (r: seq<S.SlotRef>)
    ensures |r| == |members| && forall i :: 0 <= i < |r| ==> r[i] == S.SlotRef(owner, iface, members[i])
  {
    seq(|members|, i requires 0 <= i < |members| => S.SlotRef(owner, iface, members[i]))
  }

  /** One slot per member of every injected slice. */
  function SlotsOf(allEdges: seq<PendingAllEdge>): seq<S.SlotRef> {
    if allEdges == [] then []
    else MemberSlots(allEdges[0].owner, allEdges[0].iface, allEdges[0].matches) + SlotsOf(allEdges[1..])
  }

  lemma {:induction false} SlotComesFromEdge(allEdges: seq<PendingAllEdge>, x: S.SlotRef)
    ensures x in SlotsOf(allEdges) <==>
              exists e :: e in allEdges && x.owner == e.owner && x.iface == e.iface && x.member in e.matches
  {
    if allEdges != [] {
      var e, here := allEdges[0], MemberSlots(allEdges[0].owner, allEdges[0].iface, allEdges[0].matches);
      SlotComesFromEdge(allEdges[1..], x);
      if x.owner == e.owner && x.iface == e.iface && x.member in e.matches {
        var i :| 0 <= i < |e.matches| && e.matches[i] == x.member;
        assert here[i] == x;
      }
      assert forall f :: f in allEdges <==> f == e || f in allEdges[1..];
    }
  }

  function NodeTasks(nodes: seq<Provider>): (r: seq<S.Task>)
    ensures |r| == |nodes| && forall i :: 0 <= i < |r| ==> r[i] == S.NodeTask(nodes[i])
  {
    seq(|nodes|, i requires 0 <= i < |nodes| => S.NodeTask(nodes[i]))
  }

  function EdgeTasks(targets: seq<Provider>, from: nat): (r: seq<S.Task>)
    requires from <= |targets|
    ensures NoDup(r)
    ensures forall t :: t in r <==> t.EdgeTask? && from <= t.e < |targets| && S.IsTransient(targets[t.e])
    decreases |targets| - from
  {
    if from == |targets| then []
    else (if S.IsTransient(targets[from]) then [S.EdgeTask(from)] else []) + EdgeTasks(targets, from + 1)
  }

  function TasksOf(nodes: seq<Provider>, targets: seq<Provider>): seq<S.Task> {
    NodeTasks(nodes) + EdgeTasks(targets, 0)
  }

  lemma TasksAreDistinct(nodes: seq<Provider>, targets: seq<Provider>)
    requires NoDup(nodes)
    ensures NoDup(TasksOf(nodes, targets))
    ensures forall p :: S.NodeTask(p) in TasksOf(nodes, targets) <==> p in nodes
    ensures forall e: nat :: S.EdgeTask(e) in TasksOf(nodes, targets) <==> e < |targets| && S.IsTransient(targets[e])
  {
    var a, b := NodeTasks(nodes), EdgeTasks(targets, 0);
    assert forall i :: 0 <= i < |b| ==> b[i] in b && b[i].EdgeTask?;
    forall p | p in nodes ensures S.NodeTask(p) in a {
      var i :| 0 <= i < |nodes| && nodes[i] == p;
      assert a[i] == S.NodeTask(p);
    }
  }

  ghost predicate Node(b: Bootstrap, p: Provider) {
    p.Concrete? && RegisteredIn(b.tree, p)
  }

  /** Registered provider u injects registered provider v. */
  ghost predicate Injects(b: Bootstrap, u: Provider, v: Provider)
    requires AssembledTree(b.tree)
  {
    Node(b, u) && Node(b, v) && DependsOn(b, u, v)
  }

  /** Registered providers that inject one another in a circle. */
  ghost predicate CircularInjection(b: Bootstrap, p: seq<Provider>)
    requires AssembledTree(b.tree)
  {
    && |p| >= 2 && p[0] == p[|p| - 1]
    && forall i, j :: 0 <= i < j < |p| && j == i + 1 ==> Injects(b, p[i], p[j])
  }

  datatype Prepared = Nothing | SearchFailed | Circular(chain: seq<Provider>) | Ready(c: S.Config)

  /** The checks before any goroutine starts. A circle of injections is reported exactly when
      there is one, and otherwise the stage is set up for every registered provider and every
      recorded injection, with a topological order to run in. */
  method Prepare(b: Bootstrap, order: seq<ModuleId>, eager: map<Provider, S.Value>, overrides: map<Provider, S.Value>,
                 assignable: set<(Type, Type)>)
    returns (r: Prepared, ghost topo: seq<Provider>)
    requires b.Recorded() && b.tree.Keys == Elems(order)
    requires forall e :: e in b.edges ==> e.owner.ProviderOwner?
    requires forall p :: p in eager ==> eager[p] == S.Eager(p)
    ensures r.Nothing? <==> forall p :: !Node(b, p)
    ensures !r.Nothing? ==> (r.SearchFailed? <==> !b.AllFound())
    ensures r.Circular? ==> CircularInjection(b, r.chain) && NoDup(r.chain[1..])
    ensures r.Ready? ==> forall p :: !CircularInjection(b, p)
    ensures r.Ready? ==> S.WellFormed(r.c, topo) && StagesInjections(b, r.c)
    ensures r.Ready? ==> r.c.eager == eager && r.c.overrides == overrides && r.c.assignable == assignable
  {
    topo := [];
    var nodes := AllProviders(b.tree, order);
    if nodes == [] {
      assert forall p :: Node(b, p) <==> p in nodes;
      return Nothing, [];
    }
    assert nodes[0] in nodes && Node(b, nodes[0]);
    var full := BuildGraph(b);
    if full.None? {
      return SearchFailed, [];
    }
    var graph := ScopedGraph(full.value, nodes);
    var err;
    err, topo := Cycle.DetectCycle(graph);
    if err.Some? {
      CircleOfWalk(b, graph, err.value);
      return Circular(err.value), topo;
    }
    forall p | CircularInjection(b, p) ensures false {
      CircleOfWalk(b, graph, p);
    }
    var c := Stage(b, nodes, graph, eager, overrides, assignable);
    StageIsWellFormed(b, nodes, graph, eager, overrides, assignable, topo);
    return Ready(c), topo;
  }

  ghost predicate GraphOf(b: Bootstrap, graph: Graph<Provider>)
    requires AssembledTree(b.tree)
  {
    forall u, v :: v in Deps(graph, u) <==> Injects(b, u, v)
  }

  lemma CircleOfWalk(b: Bootstrap, graph: Graph<Provider>, p: seq<Provider>)
    requires AssembledTree(b.tree) && GraphOf(b, graph)
    ensures CircularInjection(b, p) <==> ClosedWalk(graph, p)
  {
    if CircularInjection(b, p) {
      assert forall i, j :: 0 <= i < j < |p| && j == i + 1 ==> Injects(b, p[i], p[j]);
    }
    if ClosedWalk(graph, p) {
      forall i, j | 0 <= i < j < |p| && j == i + 1 ensures Injects(b, p[i], p[j]) {
        assert p[j] in Deps(graph, p[i]);
      }
    }
  }

  function Stage(b: Bootstrap, nodes: seq<Provider>, graph: Graph<Provider>, eager: map<Provider, S.Value>,
                 overrides: map<Provider, S.Value>, assignable: set<(Type, Type)>): S.Config
    requires AssembledTree(b.tree) && forall e :: e in b.edges ==> b.Target(e).Found?
  {
    var owners := seq(|b.edges|, i requires 0 <= i < |b.edges| => b.edges[i].owner);
    var targets := seq(|b.edges|, i requires 0 <= i < |b.edges| => assert b.edges[i] in b.edges;
        b.Target(b.edges[i]).p);
    S.Config(nodes, graph, TasksOf(nodes, targets), owners, targets, SlotsOf(b.allEdges), eager, overrides, assignable)
  }

  /** The stage has one node per registered provider, and each recorded injection keeps its
      owner and the provider that the search finds for it. */
  ghost predicate StagesInjections(b: Bootstrap, c: S.Config)
    requires AssembledTree(b.tree)
  {
    && (forall p :: p in c.nodes <==> Node(b, p))
    && |c.targets| == |c.edgeOwner| == |b.edges|
    && (forall i :: 0 <= i < |b.edges| ==>
        c.edgeOwner[i] == b.edges[i].owner && b.Target(b.edges[i]) == Found(c.targets[i]))
    && c.slots == SlotsOf(b.allEdges)
  }

  lemma StageIsWellFormed(b: Bootstrap, nodes: seq<Provider>, graph: Graph<Provider>, eager: map<Provider, S.Value>,
                          overrides: map<Provider, S.Value>, assignable: set<(Type, Type)>, topo: seq<Provider>)
    requires b.Recorded() && forall e :: e in b.edges ==> b.Target(e).Found?
    requires NoDup(nodes) && (forall p :: p in nodes <==> Node(b, p)) && GraphOf(b, graph)
    requires Topological(graph, topo) && graph.Keys <= Elems(topo)
    requires forall p :: p in eager ==> eager[p] == S.Eager(p)
    ensures var c := Stage(b, nodes, graph, eager, overrides, assignable);
            S.WellFormed(c, topo) && StagesInjections(b, c)
  {
    var c := Stage(b, nodes, graph, eager, overrides, assignable);
    TasksAreDistinct(nodes, c.targets);
    forall e | 0 <= e < |c.targets|
      ensures c.targets[e] in c.nodes
      ensures c.edgeOwner[e].ProviderOwner? && c.edgeOwner[e].p in c.nodes ==>
                c.targets[e] in Deps(graph, c.edgeOwner[e].p)
    {
      EdgeIsStaged(b, nodes, graph, b.edges[e]);
    }
    forall x | x in c.slots
      ensures x.owner.ProviderOwner? && x.owner.p in nodes && x.member in nodes ==> x.member in Deps(graph, x.owner.p)
    {
      SlotIsStaged(b, nodes, graph, x);
    }
    assert forall i :: 0 <= i < |c.slots| ==> c.slots[i] in c.slots;
  }

  lemma SlotIsStaged(b: Bootstrap, nodes: seq<Provider>, graph: Graph<Provider>, x: S.SlotRef)
    requires b.Recorded() && x in SlotsOf(b.allEdges)
    requires (forall p :: p in nodes <==> Node(b, p)) && GraphOf(b, graph)
    ensures x.owner.ProviderOwner? && x.owner.p in nodes && x.member in nodes ==> x.member in Deps(graph, x.owner.p)
  {
    SlotComesFromEdge(b.allEdges, x);
    var e :| e in b.allEdges && x.owner == e.owner && x.iface == e.iface && x.member in e.matches;
    if x.owner.ProviderOwner? && x.owner.p in nodes && x.member in nodes {
      assert SliceDep(b.allEdges, x.owner.p, x.member);
      assert Injects(b, x.owner.p, x.member);
    }
  }

  lemma EdgeIsStaged(b: Bootstrap, nodes: seq<Provider>, graph: Graph<Provider>, e: PendingEdge)
    requires b.Recorded() && e in b.edges && b.Target(e).Found?
    requires (forall p :: p in nodes <==> Node(b, p)) && GraphOf(b, graph)
    ensures b.Target(e).p in nodes
    ensures e.owner.ProviderOwner? && e.owner.p in nodes ==> b.Target(e).p in Deps(graph, e.owner.p)
  {
    SingleEdgesSurvive(b, nodes, e);
    if e.owner.ProviderOwner? && e.owner.p in nodes {
      assert SingleDep(b, b.edges, e.owner.p, b.Target(e).p);
      assert Injects(b, e.owner.p, b.Target(e).p);
    }
  }
}
