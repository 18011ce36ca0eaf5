// internal/resolver/resolver.go and graph.go, the graph filter of stage3.go, and the
// bookkeeping of internal/inject/inject.go they read: from recorded injections to the
// provider graph that Stage 3 runs on.
module Resolver {
  import opened Graphs
  import opened Modules
  import opened EffectiveExports

  // ---- the assembled tree ----

  /** What a successful assembly leaves: valid export lists, and no import that leads out. */
  ghost predicate AssembledTree(tree: Decls) {
    forall m :: m in tree ==> ExportsValid(tree[m]) && forall im :: im in tree[m].imports ==> im in tree
  }

  function TreeOf(decls: Decls, order: seq<ModuleId>): Decls {
    map m | m in order && m in decls :: decls[m]
  }

  /** Breadth-first completeness and export validation together close the tree. */
  lemma AssemblyClosesTree(before: Decls, after: Decls, root: ModuleId, order: seq<ModuleId>, r: AssembleResult)
    requires ImportsClosed(before) && root in before
    requires ByDistance(ImportGraph(before), root, order) && RanOnce(before, after, order)
    requires Outcome(after, order, r) && r.Ok?
    ensures AssembledTree(TreeOf(after, order)) && TreeOf(after, order).Keys == Elems(order)
  {
    var tree, g := TreeOf(after, order), ImportGraph(before);
    forall m, im | m in tree && im in tree[m].imports ensures im in order {
      assert Reaches(g, root, m) && im in Deps(g, m);
      ReachesStep(g, root, m, im);
    }
  }

  lemma ReexportsStayInTree(tree: Decls)
    requires AssembledTree(tree)
    ensures ClosedUnder(ReexportGraph(tree), tree.Keys)
  {
  }

  // ---- the scoped search ----

  datatype FindResult = Found(p: Provider) | NotExported(m: ModuleId) | NotRegistered

  function FirstOfType(ps: seq<Provider>, target: Type): (r: Option<Provider>)
    ensures r.None? <==> forall p :: p in ps ==> p.ResolvedType() != target
    ensures r.Some? ==> r.value in ps && r.value.ResolvedType() == target
  {
    if ps == [] then None
    else if ps[0].ResolvedType() == target then Some(ps[0])
    else FirstOfType(ps[1..], target)
  }

  function FindImported(tree: Decls, imports: seq<ModuleId>, target: Type): FindResult
    requires AssembledTree(tree) && forall im :: im in imports ==> im in tree
  {
    if imports == [] then NotRegistered
    else
      var im := imports[0];
      ReexportsStayInTree(tree);
      match FirstOfType(Effective(tree, im), target)
      case Some(p) => Found(p)
      case None =>
        if FirstOfType(tree[im].providers, target).Some? then NotExported(im)
        else FindImported(tree, imports[1..], target)
  }

  /** Own providers first, then what the imported modules make visible. */
  function Find(tree: Decls, owner: ModuleId, target: Type): FindResult
    requires AssembledTree(tree) && owner in tree
  {
    match FirstOfType(tree[owner].providers, target)
    case Some(p) => Found(p)
    case None => FindImported(tree, tree[owner].imports, target)
  }

  /** The provider is effectively exported by the module. */
  ghost predicate Visible(tree: Decls, m: ModuleId, p: Provider) {
    exists x :: Reaches(ReexportGraph(tree), m, x) && p in OwnExports(tree, x)
  }

  ghost predicate RegisteredIn(tree: Decls, p: Provider) {
    exists m :: Registers(tree, m, p)
  }

  /** Every provider that the tree registers has an owner in the tree, the last of its registrars. */
  lemma RegisteredHasOwner(decls: Decls, order: seq<ModuleId>, owner: map<Provider, ModuleId>, p: Provider)
    requires OwnersWired(decls, order, owner) && RegisteredIn(TreeOf(decls, order), p)
    ensures p in owner && owner[p] in TreeOf(decls, order) && Registers(decls, owner[p], p)
  {
    var m :| Registers(TreeOf(decls, order), m, p);
    var i := |order| - 1;
    while !Registers(decls, order[i], p)
      invariant 0 <= i < |order| && m in order[..i + 1]
      invariant forall j :: i < j < |order| ==> !Registers(decls, order[j], p)
      decreases i
    {
      assert order[..i + 1] == order[..i] + [order[i]];
      i := i - 1;
    }
    assert LastRegistrar(decls, order, i, p);
  }

  lemma VisibleIsRegistered(tree: Decls, m: ModuleId, p: Provider)
    requires AssembledTree(tree) && m in tree && Visible(tree, m, p)
    ensures RegisteredIn(tree, p)
  {
    ReexportsStayInTree(tree);
    var x :| Reaches(ReexportGraph(tree), m, x) && p in OwnExports(tree, x);
    ReachableStaysInside(ReexportGraph(tree), tree.Keys, m, x);
    assert Registers(tree, x, p);
  }

  /** The import neither makes the type visible nor hides a provider of it. */
  ghost predicate Silent(tree: Decls, im: ModuleId, target: Type) {
    && (forall p :: Visible(tree, im, p) ==> p.ResolvedType() != target)
    && (forall p :: Registers(tree, im, p) ==> p.ResolvedType() != target)
  }

  /** The import answers a search with r. */
  ghost predicate Answers(tree: Decls, im: ModuleId, target: Type, r: FindResult) {
    match r
    case Found(p) => Visible(tree, im, p) && p.ResolvedType() == target
    case NotExported(m) =>
      && m == im && (forall p :: Visible(tree, im, p) ==> p.ResolvedType() != target)
      && exists p :: Registers(tree, im, p) && p.ResolvedType() == target
    case NotRegistered => false
  }

  /** The first import that is not silent answers; without one the type is not registered. */
  ghost predicate StopsAtFirst(tree: Decls, imports: seq<ModuleId>, target: Type, r: FindResult) {
    if r.NotRegistered? then forall im :: im in imports ==> Silent(tree, im, target)
    else exists i :: 0 <= i < |imports| && Answers(tree, imports[i], target, r)
                     && forall j :: 0 <= j < i ==> Silent(tree, imports[j], target)
  }

  lemma EffectiveIsVisible(tree: Decls, m: ModuleId, p: Provider)
    requires AssembledTree(tree) && m in tree
    ensures ClosedUnder(ReexportGraph(tree), tree.Keys)
    ensures p in Effective(tree, m) <==> Visible(tree, m, p)
  {
    ReexportsStayInTree(tree);
    EffectiveIsUnion(tree, m);
  }

  lemma {:induction false} FindImportedStops(tree: Decls, imports: seq<ModuleId>, target: Type)
    requires AssembledTree(tree) && forall im :: im in imports ==> im in tree
    ensures StopsAtFirst(tree, imports, target, FindImported(tree, imports, target))
  {
    if imports != [] {
      var im, rest := imports[0], imports[1..];
      var r := FindImported(tree, imports, target);
      ReexportsStayInTree(tree);
      forall p ensures p in Effective(tree, im) <==> Visible(tree, im, p) {
        EffectiveIsVisible(tree, im, p);
      }
      if FirstOfType(Effective(tree, im), target).Some? || FirstOfType(tree[im].providers, target).Some? {
        assert Answers(tree, imports[0], target, r);
      } else {
        FindImportedStops(tree, rest, target);
        SilentThen(tree, imports, target, r);
      }
    }
  }

  lemma SilentThen(tree: Decls, imports: seq<ModuleId>, target: Type, r: FindResult)
    requires imports != [] && Silent(tree, imports[0], target) && StopsAtFirst(tree, imports[1..], target, r)
    ensures StopsAtFirst(tree, imports, target, r)
  {
    var rest := imports[1..];
    if r.NotRegistered? {
      assert forall im :: im in imports ==> im == imports[0] || im in rest;
    } else {
      var i :| 0 <= i < |rest| && Answers(tree, rest[i], target, r) && forall j :: 0 <= j < i ==>
          Silent(tree, rest[j], target);
      forall j | 0 <= j < i + 1 ensures Silent(tree, imports[j], target) {
        assert j > 0 ==> imports[j] == rest[j - 1];
      }
      assert imports[i + 1] == rest[i];
    }
  }

  /** Search closure: whatever the search returns from a module of an assembled tree is
      registered by a module of that tree. Own providers answer first, then the imports do in
      order; the search fails only when none of them offers or hides the type. */
  lemma SearchClosure(tree: Decls, owner: ModuleId, target: Type)
    requires AssembledTree(tree) && owner in tree
    ensures var r := Find(tree, owner, target);
            && (r.Found? ==> RegisteredIn(tree, r.p) && r.p.ResolvedType() == target)
            && (if exists p :: p in tree[owner].providers && p.ResolvedType() == target
                then r.Found? && r.p in tree[owner].providers
                else StopsAtFirst(tree, tree[owner].imports, target, r))
  {
    var r, imports := Find(tree, owner, target), tree[owner].imports;
    FindImportedStops(tree, imports, target);
    if r.Found? {
      if r.p in tree[owner].providers {
        assert Registers(tree, owner, r.p);
      } else {
        var i :| 0 <= i < |imports| && Answers(tree, imports[i], target, r);
        assert imports[i] in imports;
        VisibleIsRegistered(tree, imports[i], r.p);
      }
    }
  }

  /** Own providers win over every import, and the first of them wins. */
  lemma OwnProvidersWin(tree: Decls, owner: ModuleId, target: Type, i: nat)
    requires AssembledTree(tree) && owner in tree && i < |tree[owner].providers|
    requires tree[owner].providers[i].ResolvedType() == target
    requires forall j :: 0 <= j < i ==> tree[owner].providers[j].ResolvedType() != target
    ensures Find(tree, owner, target) == Found(tree[owner].providers[i])
  {
    FirstIsLeast(tree[owner].providers, target, i);
  }

  lemma {:induction false} FirstIsLeast(ps: seq<Provider>, target: Type, i: nat)
    requires i < |ps| && ps[i].ResolvedType() == target
    requires forall j :: 0 <= j < i ==> ps[j].ResolvedType() != target
    ensures FirstOfType(ps, target) == Some(ps[i])
  {
    if i > 0 {
      FirstIsLeast(ps[1..], target, i - 1);
    }
  }

  // ---- multi-value injection ----

  function Unwrap(p: Provider): Provider {
    if p.View? then p.inner else p
  }

  /** The type a provider reports while only some builders have run: a view always reports its
      interface, a provider nothing until its own builder has called Constructor. */
  function TypeSeen(p: Provider, declared: set<Provider>): Type {
    if p.View? then p.asType else if p in declared then p.typ else NoType
  }

  ghost predicate MatchesIn(tree: Decls, declared: set<Provider>, own: seq<Provider>, imports: seq<ModuleId>, t: Type,
                            p: Provider)
  {
    exists ref :: && Unwrap(ref) == p && TypeSeen(ref, declared) == t
                  && (ref in own || exists im :: im in imports && Visible(tree, im, ref))
  }

  /** The provider is one that an InjectAll of t from the module matches. */
  ghost predicate Matches(tree: Decls, declared: set<Provider>, owner: ModuleId, t: Type, p: Provider) {
    owner in tree && MatchesIn(tree, declared, tree[owner].providers, tree[owner].imports, t, p)
  }

  method CollectType(out: seq<Provider>, ps: seq<Provider>, t: Type, declared: set<Provider>) returns (r: seq<Provider>)
    requires NoDup(out)
    ensures NoDup(r)
    ensures forall p :: p in r <==>
              p in out || exists ref :: ref in ps && TypeSeen(ref, declared) == t && Unwrap(ref) == p
  {
    r := out;
    for i := 0 to |ps|
      invariant NoDup(r)
      invariant forall p :: p in r <==>
                  p in out || exists ref :: ref in ps[..i] && TypeSeen(ref, declared) == t && Unwrap(ref) == p
    {
      assert ps[..i + 1] == ps[..i] + [ps[i]];
      var p := Unwrap(ps[i]);
      if TypeSeen(ps[i], declared) == t && p !in r {
        r := r + [p];
      }
    }
    assert ps[..|ps|] == ps;
  }

  /** Every visible provider that is seen to have the type, unwrapped, each once. */
  method FindAllRefs(tree: Decls, owner: ModuleId, t: Type, declared: set<Provider>) returns (out: seq<Provider>)
    requires AssembledTree(tree) && owner in tree
    ensures NoDup(out) && forall p :: p in out <==> Matches(tree, declared, owner, t, p)
  {
    ReexportsStayInTree(tree);
    out := CollectType([], tree[owner].providers, t, declared);
    var imports := tree[owner].imports;
    for i := 0 to |imports|
      invariant NoDup(out)
      invariant forall p :: p in out <==> MatchesIn(tree, declared, tree[owner].providers, imports[..i], t, p)
    {
      out := CollectVisible(tree, out, owner, i, t, declared);
    }
    assert imports[..|imports|] == imports;
  }

  method CollectVisible(tree: Decls, out0: seq<Provider>, owner: ModuleId, i: nat, t: Type, declared: set<Provider>)
    returns (out: seq<Provider>)
    requires AssembledTree(tree) && owner in tree && i < |tree[owner].imports| && NoDup(out0)
    requires forall p :: p in out0 <==> MatchesIn(tree, declared, tree[owner].providers, tree[owner].imports[..i], t, p)
    ensures NoDup(out)
    ensures forall p :: p in out <==>
              MatchesIn(tree, declared, tree[owner].providers, tree[owner].imports[..i + 1], t, p)
  {
    var imports := tree[owner].imports;
    assert imports[i] in imports;
    ReexportsStayInTree(tree);
    var visible := EffectiveExports.EffectiveExports(tree, imports[i]);
    EffectiveIsUnion(tree, imports[i]);
    assert forall ref :: ref in visible <==> Visible(tree, imports[i], ref);
    out := CollectType(out0, visible, t, declared);
    assert imports[..i + 1] == imports[..i] + [imports[i]];
  }

  // ---- recorded injections ----

  datatype Owner = ProviderOwner(p: Provider) | OtherOwner(m: ModuleId)

  datatype PendingEdge = PendingEdge(owner: Owner, target: Type)

  datatype PendingAllEdge = PendingAllEdge(owner: Owner, iface: Type, matches: seq<Provider>)

  /** The state that assembly and the builder functions hand to the resolution stage. */
  datatype Bootstrap = Bootstrap(
    tree: Decls,
    owners: map<Provider, ModuleId>,
    edges: seq<PendingEdge>,
    allEdges: seq<PendingAllEdge>)
  {
    function OwnerModule(o: Owner): Option<ModuleId> {
      match o
      case OtherOwner(m) => Some(m)
      case ProviderOwner(p) => if p in owners then Some(owners[p]) else None
    }

    /** What the injection calls leave recorded: pointer targets, and providers, not views, as the
        members of a slice. Owners are wired to modules of the tree, and ProviderAs accepts
        interfaces and providers only. */
    ghost predicate Recorded() {
      && AssembledTree(tree)
      && (forall e :: e in edges ==>
          e.target.Pointer? && OwnerModule(e.owner).Some? && OwnerModule(e.owner).value in tree)
      && (forall e, p :: e in allEdges && p in e.matches ==> p.Concrete?)
      && (forall m, p :: m in tree && p in tree[m].providers && p.View? ==> p.asType.Interface? && p.inner.Concrete?)
    }

    /** The provider that an injection resolves to; the search panics where there is none. */
    function Target(e: PendingEdge): FindResult
      requires AssembledTree(tree)
    {
      match OwnerModule(e.owner)
      case Some(m) => if m in tree then Find(tree, m, e.target) else NotRegistered
      case None => NotRegistered
    }

    ghost predicate AllFound()
      requires AssembledTree(tree)
    {
      forall e :: e in edges && e.owner.ProviderOwner? ==> Target(e).Found?
    }
  }

  ghost predicate SingleDep(b: Bootstrap, edges: seq<PendingEdge>, u: Provider, v: Provider)
    requires AssembledTree(b.tree)
  {
    exists e :: e in edges && e.owner == ProviderOwner(u) && b.Target(e) == Found(v)
  }

  ghost predicate SliceDep(allEdges: seq<PendingAllEdge>, u: Provider, v: Provider) {
    exists e :: e in allEdges && e.owner == ProviderOwner(u) && v in e.matches
  }

  /** An injection of provider u that provider v answers. */
  ghost predicate DependsOn(b: Bootstrap, u: Provider, v: Provider)
    requires AssembledTree(b.tree)
  {
    SingleDep(b, b.edges, u, v) || SliceDep(b.allEdges, u, v)
  }

  function Append<T>(g: Graph<T>, u: T, vs: seq<T>): Graph<T> {
    g[u := Deps(g, u) + vs]
  }

  /** The owner-to-target graph of every provider that injects; nothing when a search panics. */
  method BuildGraph(b: Bootstrap) returns (r: Option<Graph<Provider>>)
    requires b.Recorded()
    ensures r.None? <==> !b.AllFound()
    ensures r.Some? ==> forall u, v :: v in Deps(r.value, u) <==> DependsOn(b, u, v)
  {
    var g: Graph<Provider> := map[];
    for i := 0 to |b.edges|
      invariant forall e :: e in b.edges[..i] && e.owner.ProviderOwner? ==> b.Target(e).Found?
      invariant forall u, v :: v in Deps(g, u) <==> SingleDep(b, b.edges[..i], u, v)
    {
      var e := b.edges[i];
      assert e in b.edges && b.edges[..i + 1] == b.edges[..i] + [e];
      if e.owner.ProviderOwner? {
        match b.Target(e) {
          case Found(v) => g := Append(g, e.owner.p, [v]);
          case _ => return None;
        }
      }
      forall u, v ensures v in Deps(g, u) <==> SingleDep(b, b.edges[..i + 1], u, v) {
        SingleDepExtends(b, b.edges[..i], e, u, v);
      }
    }
    assert b.edges[..|b.edges|] == b.edges;
    for i := 0 to |b.allEdges|
      invariant forall u, v :: v in Deps(g, u) <==> SingleDep(b, b.edges, u, v) || SliceDep(b.allEdges[..i], u, v)
    {
      var e := b.allEdges[i];
      assert b.allEdges[..i + 1] == b.allEdges[..i] + [e];
      if e.owner.ProviderOwner? {
        g := Append(g, e.owner.p, e.matches);
      }
      forall u, v ensures v in Deps(g, u) <==> SingleDep(b, b.edges, u, v) || SliceDep(b.allEdges[..i + 1], u, v) {
        SliceDepExtends(b.allEdges[..i], e, u, v);
      }
    }
    assert b.allEdges[..|b.allEdges|] == b.allEdges;
    return Some(g);
  }

  lemma SingleDepExtends(b: Bootstrap, edges: seq<PendingEdge>, e: PendingEdge, u: Provider, v: Provider)
    requires AssembledTree(b.tree)
    ensures SingleDep(b, edges + [e], u, v) <==>
              SingleDep(b, edges, u, v) || (e.owner == ProviderOwner(u) && b.Target(e) == Found(v))
  {
    if SingleDep(b, edges, u, v) {
      var f :| f in edges && f.owner == ProviderOwner(u) && b.Target(f) == Found(v);
      assert f in edges + [e];
    }
    assert e in edges + [e];
  }

  lemma SliceDepExtends(allEdges: seq<PendingAllEdge>, e: PendingAllEdge, u: Provider, v: Provider)
    ensures SliceDep(allEdges + [e], u, v) <==>
              SliceDep(allEdges, u, v) || (e.owner == ProviderOwner(u) && v in e.matches)
  {
    if SliceDep(allEdges, u, v) {
      var f :| f in allEdges && f.owner == ProviderOwner(u) && v in f.matches;
      assert f in allEdges + [e];
    }
    assert e in allEdges + [e];
  }

  // ---- the nodes of the stage and its filtered graph ----

  /** Every registered provider once, views left out. */
  method AllProviders(tree: Decls, order: seq<ModuleId>) returns (out: seq<Provider>)
    requires tree.Keys == Elems(order)
    ensures NoDup(out) && forall p :: p in out <==> p.Concrete? && RegisteredIn(tree, p)
  {
    var seen: set<Provider> := {};
    out := [];
    for i := 0 to |order|
      invariant NoDup(out)
      invariant forall p :: p in seen <==> exists m :: m in order[..i] && p in tree[m].providers
      invariant forall p :: p in out <==> p in seen && p.Concrete?
    {
      var m := order[i];
      assert m in order && order[..i + 1] == order[..i] + [m];
      var ps := tree[m].providers;
      ghost var before := seen;
      for j := 0 to |ps|
        invariant NoDup(out)
        invariant forall p :: p in seen <==> p in before || p in ps[..j]
        invariant forall p :: p in out <==> p in seen && p.Concrete?
      {
        if ps[j] !in seen {
          seen := seen + {ps[j]};
          if ps[j].Concrete? {
            out := out + [ps[j]];
          }
        }
      }
      assert ps[..|ps|] == ps;
    }
    assert order[..|order|] == order;
    forall p ensures p in seen <==> RegisteredIn(tree, p) {
      if m :| Registers(tree, m, p) {
        assert m in order;
      }
      if m :| m in order && p in tree[m].providers {
        assert m in tree.Keys && Registers(tree, m, p);
      }
    }
  }

  function Keep(s: seq<Provider>, inScope: set<Provider>): (r: seq<Provider>)
    ensures forall p :: p in r <==> p in s && p in inScope
  {
    if s == [] then [] else (if s[0] in inScope then [s[0]] else []) + Keep(s[1..], inScope)
  }

  /** Keeps the owners and the targets that are nodes of this stage. */
  method ScopedGraph(full: Graph<Provider>, nodes: seq<Provider>) returns (g: Graph<Provider>)
    ensures g.Keys == full.Keys * Elems(nodes)
    ensures forall u, v :: v in Deps(g, u) <==> u in nodes && v in nodes && v in Deps(full, u)
  {
    var inScope := set p | p in nodes;
    g := map[];
    var todo := full.Keys;
    while todo != {}
      invariant todo <= full.Keys
      invariant g.Keys == (full.Keys - todo) * inScope
      invariant forall u :: u in g ==> g[u] == Keep(full[u], inScope)
    {
      var u :| u in todo;
      todo := todo - {u};
      if u in inScope {
        g := g[u := Keep(full[u], inScope)];
      }
    }
  }

  /** The filter drops no single-value dependency of an in-scope owner: the search stays inside
      the tree and a pointer type never names a view. */
  lemma SingleEdgesSurvive(b: Bootstrap, nodes: seq<Provider>, e: PendingEdge)
    requires b.Recorded() && e in b.edges && b.Target(e).Found?
    requires forall p :: p in nodes <==> p.Concrete? && RegisteredIn(b.tree, p)
    ensures b.Target(e).p in nodes && b.Target(e).p.ResolvedType() == e.target
  {
    SearchClosure(b.tree, b.OwnerModule(e.owner).value, e.target);
  }
}
