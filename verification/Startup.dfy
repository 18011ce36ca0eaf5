// The first stages of New and NewTestApp in internal/app: assembly, declaration of the providers,
// the check of the views that only New makes, and the preparation of the resolution stage.
module Startup {
  import opened Graphs
  import opened Modules
  import opened Resolver
  import opened Injection
  import opened Bootstrapping
  import S = Stage3
  import R = Stage3Runs

  datatype Started =
    | NotAssembled(error: AssembleError)
    | BuilderPanicked
    | ViewRefused(view: Provider)
    | Stopped(why: Prepared)
    | Running(c: S.Config)

  /** ProviderAs makes no other views, in any module. */
  ghost predicate ViewsWellMade(decls: Decls) {
    forall m, p :: m in decls && p in Assembled(decls[m]).providers && p.View? ==>
        p.asType.Interface? && p.inner.Concrete?
  }

  /** Assembly leaves all that the injection calls rely on. */
  lemma AssemblyReadiesInjection(before: Decls, after: Decls, root: ModuleId, order: seq<ModuleId>, r: AssembleResult,
                                 owner: map<Provider, ModuleId>)
    requires ImportsClosed(before) && ViewsWellMade(before) && root in before
    requires ByDistance(ImportGraph(before), root, order) && RanOnce(before, after, order)
               && OwnersWired(after, order, owner)
    requires Outcome(after, order, r) && r.Ok?
    ensures AssembledTree(TreeOf(after, order)) && TreeOf(after, order).Keys == Elems(order)
    ensures ViewsWrapProviders(TreeOf(after, order))
    ensures forall p :: RegisteredIn(TreeOf(after, order), p) ==> p in owner && owner[p] in TreeOf(after, order)
  {
    AssemblyClosesTree(before, after, root, order, r);
    forall p | RegisteredIn(TreeOf(after, order), p) ensures p in owner && owner[p] in TreeOf(after, order) {
      RegisteredHasOwner(after, order, owner, p);
    }
  }

  /** What the builders have recorded is what the resolution stage expects. */
  lemma InjectorRecords(injector: Injector)
    requires injector.Valid()
    ensures BootstrapOf(injector).Recorded() && forall e :: e in injector.edges ==> e.owner.ProviderOwner?
  {
    var b := BootstrapOf(injector);
    forall e, p | e in b.allEdges && p in e.matches ensures p.Concrete? {
      var i :| 0 <= i < |b.allEdges| && b.allEdges[i] == e;
      assert SliceRecorded(injector.tree, injector.owners, e, injector.seen[i]);
      MatchIsProvider(b.tree, injector.seen[i], b.owners[e.owner.p], e.iface, p);
    }
  }

  function BootstrapOf(injector: Injector): Bootstrap
    reads injector
  {
    Bootstrap(injector.tree, injector.owners, injector.edges, injector.allEdges)
  }

  /** Every recorded slice member is registered, and fits its slice. */
  ghost predicate MembersAreServed(b: Bootstrap, implements: set<(Type, Type)>) {
    forall e, p :: e in b.allEdges && p in e.matches ==>
      p.Concrete? && RegisteredIn(b.tree, p) && Assignable(implements, p.ResolvedType(), e.iface)
  }

  /** Every slice member is a node of the stage, and fits its slot. */
  ghost predicate SlotsAreServed(c: S.Config) {
    forall i :: 0 <= i < |c.slots| ==>
        c.slots[i].member in c.nodes && Assignable(c.assignable, c.slots[i].member.ResolvedType(), c.slots[i].iface)
  }

  ghost predicate TreeReady(tree: Decls, owners: map<Provider, ModuleId>, order: seq<ModuleId>) {
    && AssembledTree(tree) && tree.Keys == Elems(order) && ViewsWrapProviders(tree)
    && forall p :: RegisteredIn(tree, p) ==> p in owners && owners[p] in tree
  }

  /** The recorded injections are what the builders of the registered providers request, in the
      order of their first registrations, and each slice holds what its owner's builder could see. */
  ghost predicate RecordsRequests(b: Bootstrap, order: seq<ModuleId>, builders: Builders)
    requires b.tree.Keys == Elems(order)
  {
    var all := Registrations(b.tree, order);
    && b.edges == EdgesOfAll(builders, Declarations(all, {}))
    && Heads(b.allEdges) == SlicesOfAll(builders, Declarations(all, {}))
    && forall e :: e in b.allEdges ==>
        e.owner.ProviderOwner? && SliceRecorded(b.tree, b.owners, e, DeclaredBefore(all, {}, e.owner.p))
  }

  /** Stage 2, with the check of the views where there is one. */
  method Record(tree: Decls, owners: map<Provider, ModuleId>, order: seq<ModuleId>, builders: Builders, checked: bool,
                implements: set<(Type, Type)>)
    returns (failed: Option<Started>, b: Bootstrap)
    requires TreeReady(tree, owners, order)
    ensures failed == Some(BuilderPanicked) <==> !AllRun(tree, owners, builders, Registrations(tree, order), {})
    ensures failed.None? <==>
              AllRun(tree, owners, builders, Registrations(tree, order), {})
              && (checked ==> ViewsHold(tree, implements))
    ensures failed.Some? && !failed.value.BuilderPanicked? ==>
              failed.value.ViewRefused? && BadView(tree, implements, failed.value.view)
    ensures b.tree == tree && b.owners == owners
    ensures failed.None? ==> b.Recorded() && RecordsRequests(b, order, builders) && AllByProviders(b)
    ensures failed.None? && checked ==> MembersAreServed(b, implements)
  {
    var injector := new Injector(tree, owners, builders, {});
    b := Bootstrap(tree, owners, [], []);
    var ok := injector.DeclareProviders(order);
    if !ok {
      return Some(BuilderPanicked), b;
    }
    ghost var all := Registrations(tree, order);
    RegistrationsAre(tree, order);
    AllDeclared(tree, all, injector.declared);
    if checked {
      var bad := ValidateProviderAsRefs(tree, order, injector.declared, implements);
      if bad.Some? {
        return Some(ViewRefused(bad.value)), b;
      }
      SeenStaysDeclared(all, injector.allEdges, injector.seen, injector.declared);
      CheckedMembersAreServed(injector, implements);
    }
    InjectorRecords(injector);
    b := Bootstrap(tree, owners, injector.edges, injector.allEdges);
    SlicesAreSeen(injector, all);
    return None, b;
  }

  ghost predicate AllByProviders(b: Bootstrap) {
    forall e :: e in b.edges ==> e.owner.ProviderOwner?
  }

  /** Every registered view wraps a registered provider that implements its interface. */
  ghost predicate ViewsHold(tree: Decls, implements: set<(Type, Type)>) {
    !exists p :: BadView(tree, implements, p)
  }

  ghost predicate BadView(tree: Decls, implements: set<(Type, Type)>, p: Provider) {
    && RegisteredIn(tree, p) && p.View?
    && !(p.inner.Concrete? && RegisteredIn(tree, p.inner) && p.inner.typ != NoType
        && (p.inner.typ, p.asType) in implements)
  }

  lemma AllDeclared(tree: Decls, all: seq<Provider>, declared: set<Provider>)
    requires ViewsWrapProviders(tree) && forall p :: p in all <==> RegisteredIn(tree, p)
    requires forall p :: p in declared <==> p.Concrete? && p in all
    ensures forall implements :: Guarded(tree, declared, implements) <==> ViewsHold(tree, implements)
    ensures forall implements, p :: RegisteredIn(tree, p) && !ViewOk(p, declared, implements) ==>
              BadView(tree, implements, p)
    ensures forall p :: p in declared ==> RegisteredIn(tree, p)
  {
    forall implements ensures Guarded(tree, declared, implements) <==> ViewsHold(tree, implements) {
      forall p | RegisteredIn(tree, p) ensures ViewOk(p, declared, implements) <==> !BadView(tree, implements, p) {
        var m :| Registers(tree, m, p);
      }
    }
  }

  lemma SlicesAreSeen(injector: Injector, all: seq<Provider>)
    requires injector.Valid() && SeenInOrder(all, {}, injector.allEdges, injector.seen)
    ensures forall e :: e in injector.allEdges ==>
              e.owner.ProviderOwner?
                  && SliceRecorded(injector.tree, injector.owners, e, DeclaredBefore(all, {}, e.owner.p))
  {
    forall e | e in injector.allEdges
      ensures e.owner.ProviderOwner?
                && SliceRecorded(injector.tree, injector.owners, e, DeclaredBefore(all, {}, e.owner.p)) {
      var k :| 0 <= k < |injector.allEdges| && injector.allEdges[k] == e;
      assert SliceRecorded(injector.tree, injector.owners, injector.allEdges[k], injector.seen[k]);
    }
  }

  /** What a call found declared when it recorded a slice. */
  ghost predicate SeenIsDeclared(seen: seq<set<Provider>>, declared: set<Provider>) {
    forall i :: 0 <= i < |seen| ==> seen[i] <= declared
  }

  lemma SeenStaysDeclared(all: seq<Provider>, allEdges: seq<PendingAllEdge>, seen: seq<set<Provider>>,
                          declared: set<Provider>)
    requires SeenInOrder(all, {}, allEdges, seen) && forall p :: p in declared <==> p.Concrete? && p in all
    ensures SeenIsDeclared(seen, declared)
  {
  }

  lemma CheckedMembersAreServed(injector: Injector, implements: set<(Type, Type)>)
    requires injector.Valid() && Guarded(injector.tree, injector.declared, implements)
    requires SeenIsDeclared(injector.seen, injector.declared)
    requires forall p :: p in injector.declared ==> RegisteredIn(injector.tree, p)
    ensures MembersAreServed(BootstrapOf(injector), implements)
  {
    forall e, p | e in injector.allEdges && p in e.matches
      ensures p.Concrete? && RegisteredIn(injector.tree, p) && Assignable(implements, p.ResolvedType(), e.iface) {
      MemberIsServed(injector, e, implements, p);
    }
  }

  lemma MemberIsServed(injector: Injector, e: PendingAllEdge, implements: set<(Type, Type)>, p: Provider)
    requires injector.Valid() && Guarded(injector.tree, injector.declared, implements)
    requires SeenIsDeclared(injector.seen, injector.declared)
    requires e in injector.allEdges && p in e.matches
    ensures p in injector.declared && p.Concrete? && Assignable(implements, p.ResolvedType(), e.iface)
  {
    var k :| 0 <= k < |injector.allEdges| && injector.allEdges[k] == e;
    GuardedMember(injector.tree, injector.owners, e, injector.seen[k], injector.declared, implements, p);
  }

  lemma CheckedSlotsAreServed(b: Bootstrap, c: S.Config)
    requires b.Recorded() && StagesInjections(b, c) && MembersAreServed(b, c.assignable)
    ensures SlotsAreServed(c)
  {
    forall i | 0 <= i < |c.slots|
      ensures c.slots[i].member in c.nodes
                && Assignable(c.assignable, c.slots[i].member.ResolvedType(), c.slots[i].iface) {
      SlotComesFromEdge(b.allEdges, c.slots[i]);
    }
  }

  /** Some export list of a visited module is invalid. */
  ghost predicate BadExports(decls: Decls, order: seq<ModuleId>) {
    exists m :: m in order && m in decls && !ExportsValid(decls[m])
  }

  /** From the modules of an application to a stage that can run. The tree is what assembly reaches
      from the root, the recorded injections are what its builders request, and the stage serves
      them; every way to stop short has its exact condition. Where the views are checked, as New
      does, every slice member is a node of the stage. */
  method Start(store: ModuleStore, root: ModuleId, builders: Builders, checked: bool, implements: set<(Type, Type)>,
               eager: map<Provider, S.Value>, overrides: map<Provider, S.Value>)
    returns (r: Started, ghost b: Bootstrap, ghost order: seq<ModuleId>, ghost topo: seq<Provider>)
    requires root in store.decls && ImportsClosed(store.decls) && ViewsWellMade(store.decls)
    requires forall p :: p in eager ==> eager[p] == S.Eager(p)
    modifies store
    ensures ByDistance(ImportGraph(old(store.decls)), root, order)
    ensures RanOnce(old(store.decls), store.decls, order) && OwnersWired(store.decls, order, store.owner)
    ensures b.tree == TreeOf(store.decls, order) && b.owners == store.owner && b.tree.Keys == Elems(order)
    ensures r.NotAssembled? <==> BadExports(store.decls, order)
    ensures r.NotAssembled? ==> r.error.m in order && Justifies(store.decls, r.error)
    ensures !r.NotAssembled? ==>
              (r.BuilderPanicked? <==> !AllRun(b.tree, b.owners, builders, Registrations(b.tree, order), {}))
    ensures !r.NotAssembled? && !r.BuilderPanicked? ==> (r.ViewRefused? <==> checked && !ViewsHold(b.tree, implements))
    ensures r.ViewRefused? ==> BadView(b.tree, implements, r.view)
    ensures r.Stopped? || r.Running? ==> b.Recorded() && RecordsRequests(b, order, builders)
    ensures r.Stopped? || r.Running? ==> (r.Running? <==> CanStart(b))
    ensures r.Stopped? ==> StopsFor(b, r.why)
    ensures r.Running? ==> S.WellFormed(r.c, topo) && StagesInjections(b, r.c)
    ensures r.Running? ==> r.c.eager == eager && r.c.overrides == overrides && r.c.assignable == implements
    ensures r.Running? && checked ==> SlotsAreServed(r.c)
  {
    topo := [];
    ghost var before := store.decls;
    var assembled;
    assembled, order := store.Assemble(root);
    b := Bootstrap(TreeOf(store.decls, order), store.owner, [], []);
    AssemblyFailsIff(store.decls, order, assembled);
    RanOnceHolds(before, store.decls, root, order);
    if assembled.Err? {
      return NotAssembled(assembled.error), b, order, topo;
    }
    AssemblyReadiesInjection(before, store.decls, root, order, assembled, store.owner);
    var failed, recorded :=
        Record(TreeOf(store.decls, assembled.order), store.owner, assembled.order, builders, checked, implements);
    b := recorded;
    if failed.Some? {
      return failed.value, b, order, topo;
    }
    r, topo := Ready(recorded, assembled.order, checked, implements, eager, overrides);
  }

  lemma AssemblyFailsIff(decls: Decls, order: seq<ModuleId>, r: AssembleResult)
    requires Outcome(decls, order, r)
    ensures r.Err? <==> BadExports(decls, order)
  {
  }

  lemma RanOnceHolds(before: Decls, after: Decls, root: ModuleId, order: seq<ModuleId>)
    requires root in before && ImportsClosed(before) && ByDistance(ImportGraph(before), root, order)
               && RanOnce(before, after, order)
    ensures TreeOf(after, order).Keys == Elems(order)
  {
    forall m | m in order ensures m in after {
      assert Reaches(ImportGraph(before), root, m);
      ReachableStaysInside(ImportGraph(before), before.Keys, root, m);
    }
  }

  /** Some provider is registered, every injection finds its provider, and none goes in a circle. */
  ghost predicate CanStart(b: Bootstrap)
    requires AssembledTree(b.tree)
  {
    (exists p :: Node(b, p)) && b.AllFound() && !exists chain :: CircularInjection(b, chain)
  }

  ghost predicate StopsFor(b: Bootstrap, why: Prepared)
    requires AssembledTree(b.tree)
  {
    match why
    case Nothing => forall p :: !Node(b, p)
    case SearchFailed => !b.AllFound()
    case Circular(chain) => CircularInjection(b, chain) && NoDup(chain[1..])
    case Ready(_) => false
  }

  method Ready(b: Bootstrap, order: seq<ModuleId>, checked: bool, implements: set<(Type, Type)>,
               eager: map<Provider, S.Value>, overrides: map<Provider, S.Value>)
    returns (r: Started, ghost topo: seq<Provider>)
    requires b.Recorded() && b.tree.Keys == Elems(order) && AllByProviders(b)
    requires checked ==> MembersAreServed(b, implements)
    requires forall p :: p in eager ==> eager[p] == S.Eager(p)
    ensures r.Running? || r.Stopped?
    ensures r.Running? <==> CanStart(b)
    ensures r.Stopped? ==> StopsFor(b, r.why)
    ensures r.Running? ==> S.WellFormed(r.c, topo) && StagesInjections(b, r.c)
    ensures r.Running? ==> r.c.eager == eager && r.c.overrides == overrides && r.c.assignable == implements
    ensures r.Running? && checked ==> SlotsAreServed(r.c)
  {
    var prepared;
    prepared, topo := Prepare(b, order, eager, overrides, implements);
    if !prepared.Ready? {
      return Stopped(prepared), topo;
    }
    if checked {
      CheckedSlotsAreServed(b, prepared.c);
    }
    return Running(prepared.c), topo;
  }

  // ---- what an application that has started guarantees ----

  /** A builder's request for a single provider has a placeholder in the stage, with a target of the
      requested type, and there are no others. */
  lemma RequestsReachStage(b: Bootstrap, order: seq<ModuleId>, builders: Builders, c: S.Config, p: Provider, t: Type)
    requires b.Recorded() && b.tree.Keys == Elems(order) && RecordsRequests(b, order, builders)
               && StagesInjections(b, c)
    requires p.Concrete? && RegisteredIn(b.tree, p)
    ensures One(t) in RequestsOf(builders, p) <==>
              exists i :: 0 <= i < |c.targets| && c.edgeOwner[i] == ProviderOwner(p) && c.targets[i].ResolvedType() == t
  {
    var all := Registrations(b.tree, order);
    RegistrationsAre(b.tree, order);
    InDeclarations(all, {}, p);
    InEdgesOfAll(builders, Declarations(all, {}), p, t);
    forall i | 0 <= i < |c.targets| ensures c.targets[i].ResolvedType() == b.edges[i].target {
      EdgeHasType(b, b.edges[i]);
    }
    if One(t) in RequestsOf(builders, p) {
      var i :| 0 <= i < |b.edges| && b.edges[i] == PendingEdge(ProviderOwner(p), t);
      assert c.edgeOwner[i] == ProviderOwner(p);
    }
    if i :| 0 <= i < |c.targets| && c.edgeOwner[i] == ProviderOwner(p) && c.targets[i].ResolvedType() == t {
      assert b.edges[i] == PendingEdge(ProviderOwner(p), t) && b.edges[i] in b.edges;
    }
  }

  lemma EdgeHasType(b: Bootstrap, e: PendingEdge)
    requires b.Recorded() && e in b.edges && b.Target(e).Found?
    ensures b.Target(e).p.ResolvedType() == e.target
  {
    SearchClosure(b.tree, b.OwnerModule(e.owner).value, e.target);
  }

  /** A builder of a registered provider asks for all of an interface, and a view of m as that
      interface is visible to it. */
  ghost predicate ViewedBy(b: Bootstrap, builders: Builders, p: Provider, t: Type, m: Provider) {
    && p.Concrete? && RegisteredIn(b.tree, p) && All(t) in RequestsOf(builders, p) && p in b.owners
    && Matches(b.tree, {}, b.owners[p], t, m)
  }

  /** A stage has a transient member in a slice if and only if some builder asks for an interface
      as which a view of the transient provider is visible to it. */
  lemma TransientSlotIff(b: Bootstrap, order: seq<ModuleId>, builders: Builders, c: S.Config, m: Provider)
    requires b.Recorded() && b.tree.Keys == Elems(order) && RecordsRequests(b, order, builders)
               && StagesInjections(b, c)
    requires m.Concrete? && m.scope.Transient?
    ensures (exists i :: 0 <= i < |c.slots| && c.slots[i].member == m) <==>
              exists p, t :: ViewedBy(b, builders, p, t, m)
  {
    var all := Registrations(b.tree, order);
    RegistrationsAre(b.tree, order);
    if i :| 0 <= i < |c.slots| && c.slots[i].member == m {
      SlotComesFromEdge(b.allEdges, c.slots[i]);
      var e :| e in b.allEdges && c.slots[i].owner == e.owner && c.slots[i].iface == e.iface && m in e.matches;
      SliceIsRequested(b, order, builders, e);
      LateMemberIff(b.tree, b.owners, e, DeclaredBefore(all, {}, e.owner.p), m);
      assert ViewedBy(b, builders, e.owner.p, e.iface, m);
    }
    if p, t :| ViewedBy(b, builders, p, t, m) {
      var e := RequestIsSlice(b, order, builders, p, t);
      LateMemberIff(b.tree, b.owners, e, DeclaredBefore(all, {}, p), m);
      SlotComesFromEdge(b.allEdges, S.SlotRef(e.owner, e.iface, m));
      var i :| 0 <= i < |c.slots| && c.slots[i] == S.SlotRef(e.owner, e.iface, m);
    }
  }

  lemma SliceIsRequested(b: Bootstrap, order: seq<ModuleId>, builders: Builders, e: PendingAllEdge)
    requires b.tree.Keys == Elems(order) && RecordsRequests(b, order, builders) && e in b.allEdges
    ensures e.owner.ProviderOwner? && e.owner.p.Concrete? && RegisteredIn(b.tree, e.owner.p)
    ensures All(e.iface) in RequestsOf(builders, e.owner.p) && e.owner.p in b.owners
  {
    var all := Registrations(b.tree, order);
    RegistrationsAre(b.tree, order);
    var k :| 0 <= k < |b.allEdges| && b.allEdges[k] == e;
    assert Heads(b.allEdges)[k] == SliceHead(e.owner, e.iface);
    InSlicesOfAll(builders, Declarations(all, {}), e.owner.p, e.iface);
    InDeclarations(all, {}, e.owner.p);
  }

  lemma RequestIsSlice(b: Bootstrap, order: seq<ModuleId>, builders: Builders, p: Provider, t: Type)
    returns (e: PendingAllEdge)
    requires b.tree.Keys == Elems(order) && RecordsRequests(b, order, builders)
    requires p.Concrete? && RegisteredIn(b.tree, p) && All(t) in RequestsOf(builders, p)
    ensures e in b.allEdges && e.owner == ProviderOwner(p) && e.iface == t
  {
    var all := Registrations(b.tree, order);
    RegistrationsAre(b.tree, order);
    InDeclarations(all, {}, p);
    InSlicesOfAll(builders, Declarations(all, {}), p, t);
    var heads := Heads(b.allEdges);
    var k :| 0 <= k < |heads| && heads[k] == SliceHead(ProviderOwner(p), t);
    e := b.allEdges[k];
  }

  /** In an application that New started without an error, and whose stage returns nil, every slice
      slot of a recorded InjectAll holds its member's value, but for members that are transient. */
  lemma CheckedSlotsAreWrittenIff(c: S.Config, topo: seq<Provider>, run: seq<S.State>, i: nat)
    requires S.WellFormed(c, topo) && SlotsAreServed(c) && c.overrides == map[]
    requires S.Run(c, run) && R.ReturnsNil(run[|run| - 1]) && i < |c.slots|
    ensures |S.History(run[|run| - 1].sh, S.Slot(i))| == if S.IsTransient(c.slots[i].member) then 0 else 1
  {
    R.SlotsWrittenOnce(c, topo, run, i);
  }

  /** In an application whose views were not checked, a slot whose member no module registers
      itself is never written, whatever becomes of the stage. */
  lemma UnregisteredMemberStaysEmpty(b: Bootstrap, c: S.Config, topo: seq<Provider>, run: seq<S.State>, j: nat, i: nat)
    requires b.Recorded() && S.WellFormed(c, topo) && StagesInjections(b, c)
    requires S.Run(c, run) && j < |run| && i < |c.slots| && !RegisteredIn(b.tree, c.slots[i].member)
    ensures S.History(run[j].sh, S.Slot(i)) == []
  {
    R.UnwritableSlotsStayEmpty(c, topo, run, j, i);
  }
}
