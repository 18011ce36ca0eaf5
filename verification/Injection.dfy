// internal/inject/inject.go, and what internal/app runs around it before the resolution stage:
// provider builders run one after the other and record what they inject, and New checks the
// views afterwards (internal/app/app.go, internal/app/provider_as_validate.go).
module Injection {
  import opened Graphs
  import opened Modules
  import opened Resolver

  /** An injection call in a builder: of one provider by pointer type, or of all of an interface. */
  datatype Request = One(target: Type) | All(iface: Type)

  type Builders = map<Provider, seq<Request>>

  /** ProviderAs wraps providers only, as interfaces only. */
  ghost predicate ViewsWrapProviders(tree: Decls) {
    forall m, p :: m in tree && p in tree[m].providers && p.View? ==> p.asType.Interface? && p.inner.Concrete?
  }

  // ---- what an InjectAll sees ----

  /** The scope a provider reports while only some builders have run. */
  function ScopeSeen(p: Provider, declared: set<Provider>): Scope {
    if p.Concrete? && p in declared then p.scope else Singleton
  }

  /** No match is seen to have another scope than Singleton. */
  ghost predicate GuardPasses(tree: Decls, declared: set<Provider>, owner: ModuleId, t: Type) {
    forall m :: Matches(tree, declared, owner, t, m) && m in declared ==> m.Concrete? && m.scope.Singleton?
  }

  /** A slice as it was recorded when the builders of the given providers had run. */
  ghost predicate SliceRecorded(tree: Decls, owners: map<Provider, ModuleId>, e: PendingAllEdge,
                                declared: set<Provider>)
  {
    && e.owner.ProviderOwner? && e.owner.p in owners && e.iface.Interface? && NoDup(e.matches)
    && (forall m :: m in e.matches <==> Matches(tree, declared, owners[e.owner.p], e.iface, m))
    && GuardPasses(tree, declared, owners[e.owner.p], e.iface)
  }

  /** When a request of p's builder does not panic. */
  ghost predicate RequestRuns(tree: Decls, owners: map<Provider, ModuleId>, p: Provider, q: Request,
                              declared: set<Provider>)
  {
    match q
    case One(t) => t.Pointer?
    case All(t) => t.Interface? && p in owners && GuardPasses(tree, declared, owners[p], t)
  }

  ghost predicate BuilderRuns(tree: Decls, owners: map<Provider, ModuleId>, p: Provider, requests: seq<Request>,
                              declared: set<Provider>) {
    forall q :: q in requests ==> RequestRuns(tree, owners, p, q, declared)
  }

  /** Where a match comes from: it, or a view of it, is registered in the tree. */
  lemma MatchIsRegistered(tree: Decls, declared: set<Provider>, owner: ModuleId, t: Type, m: Provider)
    returns (ref: Provider)
    requires AssembledTree(tree) && Matches(tree, declared, owner, t, m)
    ensures RegisteredIn(tree, ref) && Unwrap(ref) == m && TypeSeen(ref, declared) == t
  {
    ref :| Unwrap(ref) == m && TypeSeen(ref, declared) == t
        && (ref in tree[owner].providers || exists im :: im in tree[owner].imports && Visible(tree, im, ref));
    if ref in tree[owner].providers {
      assert Registers(tree, owner, ref);
    } else {
      var im :| im in tree[owner].imports && Visible(tree, im, ref);
      VisibleIsRegistered(tree, im, ref);
    }
  }

  lemma MatchIsProvider(tree: Decls, declared: set<Provider>, owner: ModuleId, t: Type, m: Provider)
    requires AssembledTree(tree) && ViewsWrapProviders(tree) && Matches(tree, declared, owner, t, m)
    ensures m.Concrete?
  {
    var ref := MatchIsRegistered(tree, declared, owner, t, m);
  }

  // ---- the recorded injections ----

  class Injector {
    const tree: Decls
    const owners: map<Provider, ModuleId>
    const builders: Builders
    var declared: set<Provider>
    var edges: seq<PendingEdge>
    var allEdges: seq<PendingAllEdge>
    /** For each slice, the providers whose builders had run when it was recorded. */
    ghost var seen: seq<set<Provider>>

    ghost predicate Ready() {
      AssembledTree(tree) && ViewsWrapProviders(tree) && forall p :: RegisteredIn(tree, p) ==>
          p in owners && owners[p] in tree
    }

    ghost predicate Valid()
      reads this
    {
      && Ready()
      && (forall e :: e in edges ==> e.target.Pointer? && e.owner.ProviderOwner? && RegisteredIn(tree, e.owner.p))
      && |seen| == |allEdges|
      && (forall i :: 0 <= i < |seen| ==>
          SliceRecorded(tree, owners, allEdges[i], seen[i]) && RegisteredIn(tree, allEdges[i].owner.p))
    }

    constructor (tree: Decls, owners: map<Provider, ModuleId>, builders: Builders, declared: set<Provider>)
      requires AssembledTree(tree) && ViewsWrapProviders(tree)
      requires forall p :: RegisteredIn(tree, p) ==> p in owners && owners[p] in tree
      ensures Valid() && this.tree == tree && this.owners == owners && this.builders == builders
                && this.declared == declared
      ensures edges == [] && allEdges == [] && seen == []
    {
      this.tree, this.owners, this.builders, this.declared := tree, owners, builders, declared;
      edges, allEdges, seen := [], [], [];
    }

    /** Records a single-value injection; a target that is not a pointer is refused. */
    method Inject(p: Provider, t: Type) returns (ok: bool)
      requires Valid() && RegisteredIn(tree, p)
      modifies this
      ensures Valid() && ok == t.Pointer?
      ensures edges == if ok then old(edges) + [PendingEdge(ProviderOwner(p), t)] else old(edges)
      ensures declared == old(declared) && allEdges == old(allEdges) && seen == old(seen)
    {
      ok := t.Pointer?;
      if ok {
        edges := edges + [PendingEdge(ProviderOwner(p), t)];
      }
    }

    /** Records a slice of all matches; one that is seen to be no singleton is refused. */
    method InjectAll(p: Provider, t: Type) returns (ok: bool)
      requires Valid() && RegisteredIn(tree, p)
      modifies this
      ensures Valid() && (ok <==> t.Interface? && GuardPasses(tree, declared, owners[p], t))
      ensures declared == old(declared) && edges == old(edges)
      ensures ok ==>
                |seen| == |old(seen)| + 1 && allEdges[..|old(allEdges)|] == old(allEdges)
                && seen == old(seen) + [declared]
      ensures ok ==> allEdges[|old(allEdges)|].owner == ProviderOwner(p) && allEdges[|old(allEdges)|].iface == t
      ensures !ok ==> allEdges == old(allEdges) && seen == old(seen)
    {
      if !t.Interface? {
        return false;
      }
      var matches := FindAllRefs(tree, owners[p], t, declared);
      MatchesAreProviders(t, p);
      var i := 0;
      while i < |matches|
        invariant i <= |matches|
        invariant forall j :: 0 <= j < i ==> ScopeSeen(matches[j], declared).Singleton?
      {
        if !ScopeSeen(matches[i], declared).Singleton? {
          assert Matches(tree, declared, owners[p], t, matches[i]);
          return false;
        }
        i := i + 1;
      }
      var e := PendingAllEdge(ProviderOwner(p), t, matches);
      assert SliceRecorded(tree, owners, e, declared);
      allEdges, seen := allEdges + [e], seen + [declared];
      return true;
    }

    lemma MatchesAreProviders(t: Type, p: Provider)
      requires Ready() && RegisteredIn(tree, p)
      ensures forall m, d :: Matches(tree, d, owners[p], t, m) ==> m.Concrete?
    {
      forall m, d | Matches(tree, d, owners[p], t, m) ensures m.Concrete? {
        MatchIsProvider(tree, d, owners[p], t, m);
      }
    }

    /** Runs one request of a builder. */
    method Answer(p: Provider, q: Request) returns (ok: bool)
      requires Valid() && RegisteredIn(tree, p)
      modifies this
      ensures Valid() && declared == old(declared) && Extends(old(allEdges), old(seen), p, declared)
      ensures ok <==> RequestRuns(tree, owners, p, q, declared)
      ensures ok ==> edges == old(edges) + EdgesOf(p, [q]) && Heads(allEdges) == Heads(old(allEdges)) + SlicesOf(p, [q])
    {
      match q
      case One(t) => ok := Inject(p, t);
      case All(t) => ok := InjectAll(p, t);
    }

    /** Slices were only added, by one builder, all while the same providers had been declared. */
    ghost predicate Extends(allEdges0: seq<PendingAllEdge>, seen0: seq<set<Provider>>, p: Provider, d: set<Provider>)
      reads this
    {
      && |allEdges0| == |seen0| <= |allEdges| == |seen| && allEdges0 <= allEdges && seen0 <= seen
      && forall i :: |seen0| <= i < |seen| ==> allEdges[i].owner == ProviderOwner(p) && seen[i] == d
    }

    /** Runs the builder of a provider, once; a builder that panics stops the bootstrap. */
    method Declare(p: Provider) returns (ok: bool)
      requires Valid() && RegisteredIn(tree, p)
      modifies this
      ensures Valid() && Extends(old(allEdges), old(seen), p, old(declared))
      ensures ok <==> !Fresh(p, old(declared)) || BuilderRuns(tree, owners, p, RequestsOf(builders, p), old(declared))
      ensures ok ==> declared == old(declared) + if p.Concrete? then {p} else {}
      ensures ok ==> edges == old(edges) + if Fresh(p, old(declared)) then EdgesOf(p, RequestsOf(builders, p)) else []
      ensures ok ==>
                Heads(allEdges) == Heads(old(allEdges)) + if Fresh(p, old(declared))
                then SlicesOf(p, RequestsOf(builders, p)) else []
    {
      if p.View? || p in declared {
        return true;
      }
      ok := RunBuilder(p, RequestsOf(builders, p));
      if ok {
        declared := declared + {p};
      }
    }

    method RunBuilder(p: Provider, requests: seq<Request>) returns (ok: bool)
      requires Valid() && RegisteredIn(tree, p)
      modifies this
      ensures Valid() && declared == old(declared) && Extends(old(allEdges), old(seen), p, declared)
      ensures ok <==> BuilderRuns(tree, owners, p, requests, declared)
      ensures ok ==>
                edges == old(edges) + EdgesOf(p, requests)
                && Heads(allEdges) == Heads(old(allEdges)) + SlicesOf(p, requests)
    {
      for i := 0 to |requests|
        invariant Valid() && declared == old(declared) && Extends(old(allEdges), old(seen), p, declared)
        invariant BuilderRuns(tree, owners, p, requests[..i], declared)
        invariant edges == old(edges) + EdgesOf(p, requests[..i])
        invariant Heads(allEdges) == Heads(old(allEdges)) + SlicesOf(p, requests[..i])
      {
        ok := Answer(p, requests[i]);
        if !ok {
          return false;
        }
        RequestsGrow(p, requests, i, old(edges), Heads(old(allEdges)));
      }
      assert requests[..|requests|] == requests;
      return true;
    }

    /** Stage 2: every registered provider in the order of modules and registrations. It succeeds
        if and only if no builder panics, and then each first registration has run its builder, on
        what the earlier ones had declared, and all that the builders requested is recorded. */
    method DeclareProviders(order: seq<ModuleId>) returns (ok: bool)
      requires Valid() && edges == [] && allEdges == [] && tree.Keys == Elems(order)
      modifies this
      ensures Valid()
      ensures ok <==> AllRun(tree, owners, builders, Registrations(tree, order), old(declared))
      ensures ok ==> Progress(Registrations(tree, order), Registrations(tree, order), old(declared))
    {
      ghost var all := Registrations(tree, order);
      RegistrationsAre(tree, order);
      for i := 0 to |order|
        invariant Valid() && Progress(all, Registrations(tree, order[..i]), old(declared))
        invariant RunUpTo(tree, owners, builders, all, Registrations(tree, order[..i]), old(declared))
      {
        PrefixRegistered(tree, order, i);
        ok := DeclareModule(order[i], all, Registrations(tree, order[..i]), old(declared));
        if !ok {
          return false;
        }
      }
      assert order[..|order|] == order;
      return true;
    }

    method DeclareModule(m: ModuleId, ghost all: seq<Provider>, ghost before: seq<Provider>,
                         ghost declared0: set<Provider>)
      returns (ok: bool)
      requires Valid() && m in tree && before + tree[m].providers <= all && Progress(all, before, declared0)
      requires RunUpTo(tree, owners, builders, all, before, declared0)
      modifies this
      ensures Valid() && (ok ==> Progress(all, before + tree[m].providers, declared0))
      ensures ok ==> RunUpTo(tree, owners, builders, all, before + tree[m].providers, declared0)
      ensures !ok ==> !AllRun(tree, owners, builders, all, declared0)
    {
      var ps := tree[m].providers;
      assert before + ps[..0] == before;
      for j := 0 to |ps|
        invariant Valid() && Progress(all, before + ps[..j], declared0)
        invariant RunUpTo(tree, owners, builders, all, before + ps[..j], declared0)
      {
        assert ps[j] in ps && Registers(tree, m, ps[j]);
        assert before + ps[..j + 1] == (before + ps[..j]) + [ps[j]] == all[..|before| + j + 1];
        ok := DeclareNext(all, before + ps[..j], declared0, ps[j]);
        if !ok {
          return false;
        }
      }
      assert ps[..|ps|] == ps;
      return true;
    }

    /** Between two builders: the providers of a prefix have been declared, what their builders
        requested is recorded, and each slice has seen the providers declared before its owner. */
    ghost predicate Progress(all: seq<Provider>, done: seq<Provider>, declared0: set<Provider>)
      reads this
    {
      && done <= all
      && (forall p :: p in declared <==> p in declared0 || (p.Concrete? && p in done))
      && edges == EdgesOfAll(builders, Declarations(done, declared0))
      && Heads(allEdges) == SlicesOfAll(builders, Declarations(done, declared0))
      && SeenInOrder(all, declared0, allEdges, seen)
    }

    method DeclareNext(ghost all: seq<Provider>, ghost done: seq<Provider>, ghost declared0: set<Provider>, p: Provider)
      returns (ok: bool)
      requires Valid() && Progress(all, done, declared0) && RegisteredIn(tree, p) && done + [p] <= all
      requires RunUpTo(tree, owners, builders, all, done, declared0)
      modifies this
      ensures Valid() && (ok ==> Progress(all, done + [p], declared0))
      ensures ok ==> RunUpTo(tree, owners, builders, all, done + [p], declared0)
      ensures !ok ==> !AllRun(tree, owners, builders, all, declared0)
    {
      ghost var d := declared;
      FreshIsNext(all, done, declared0, p, d);
      DeclarationsGrow(builders, done, declared0, p);
      ok := Declare(p);
      SeenGrows(all, declared0, old(allEdges), old(seen), allEdges, seen, p, d);
    }
  }

  // ---- what builders request ----

  function RequestsOf(builders: Builders, p: Provider): seq<Request> {
    if p in builders then builders[p] else []
  }

  function EdgesOf(p: Provider, requests: seq<Request>): seq<PendingEdge> {
    if requests == [] then []
    else
      EdgesOf(p, requests[..|requests| - 1])
      + match requests[|requests| - 1] case One(t) => [PendingEdge(ProviderOwner(p), t)] case All(_) => []
  }

  /** A slice without its members. */
  datatype SliceHead = SliceHead(owner: Owner, iface: Type)

  function SlicesOf(p: Provider, requests: seq<Request>): seq<SliceHead> {
    if requests == [] then []
    else
      SlicesOf(p, requests[..|requests| - 1])
      + match requests[|requests| - 1] case One(_) => [] case All(t) => [SliceHead(ProviderOwner(p), t)]
  }

  function Heads(allEdges: seq<PendingAllEdge>): (r: seq<SliceHead>)
    ensures |r| == |allEdges| && forall i :: 0 <= i < |r| ==> r[i] == SliceHead(allEdges[i].owner, allEdges[i].iface)
  {
    seq(|allEdges|, i requires 0 <= i < |allEdges| => SliceHead(allEdges[i].owner, allEdges[i].iface))
  }

  lemma RequestsGrow(p: Provider, requests: seq<Request>, i: nat, edges: seq<PendingEdge>, heads: seq<SliceHead>)
    requires i < |requests|
    ensures edges + EdgesOf(p, requests[..i + 1]) == edges + EdgesOf(p, requests[..i]) + EdgesOf(p, [requests[i]])
    ensures heads + SlicesOf(p, requests[..i + 1]) == heads + SlicesOf(p, requests[..i]) + SlicesOf(p, [requests[i]])
    ensures forall q :: q in requests[..i + 1] <==> q in requests[..i] || q == requests[i]
  {
    assert requests[..i + 1] == requests[..i] + [requests[i]] && requests[..i + 1][..i] == requests[..i];
    assert [requests[i]][..0] == [];
    ConcatIsAssociative(edges, EdgesOf(p, requests[..i]), EdgesOf(p, [requests[i]]));
    ConcatIsAssociative(heads, SlicesOf(p, requests[..i]), SlicesOf(p, [requests[i]]));
  }

  /** The builder of p has not run. */
  predicate Fresh(p: Provider, declared: set<Provider>) {
    p.Concrete? && p !in declared
  }

  /** The providers whose builders run, in order: first registrations, of those not declared before. */
  function Declarations(all: seq<Provider>, declared0: set<Provider>): seq<Provider> {
    if all == [] then []
    else
      var done, p := all[..|all| - 1], all[|all| - 1];
      Declarations(done, declared0) + if Fresh(p, declared0) && p !in done then [p] else []
  }

  function EdgesOfAll(builders: Builders, ps: seq<Provider>): seq<PendingEdge> {
    if ps == [] then []
    else
      var last := ps[|ps| - 1];
      EdgesOfAll(builders, ps[..|ps| - 1]) + EdgesOf(last, RequestsOf(builders, last))
  }

  function SlicesOfAll(builders: Builders, ps: seq<Provider>): seq<SliceHead> {
    if ps == [] then []
    else
      var last := ps[|ps| - 1];
      SlicesOfAll(builders, ps[..|ps| - 1]) + SlicesOf(last, RequestsOf(builders, last))
  }

  lemma DeclarationsGrow(builders: Builders, done: seq<Provider>, declared0: set<Provider>, p: Provider)
    ensures var next := Fresh(p, declared0) && p !in done; var ds := Declarations(done, declared0);
            && Declarations(done + [p], declared0) == ds + (if next then [p] else [])
            && EdgesOfAll(builders, Declarations(done + [p], declared0))
               == EdgesOfAll(builders, ds) + (if next then EdgesOf(p, RequestsOf(builders, p)) else [])
            && SlicesOfAll(builders, Declarations(done + [p], declared0))
               == SlicesOfAll(builders, ds) + (if next then SlicesOf(p, RequestsOf(builders, p)) else [])
  {
    var ds := Declarations(done, declared0);
    assert (done + [p])[..|done|] == done;
    if Fresh(p, declared0) && p !in done {
      assert (ds + [p])[..|ds|] == ds;
    } else {
      assert ds + [] == ds;
    }
  }

  lemma {:induction false} InDeclarations(all: seq<Provider>, declared0: set<Provider>, p: Provider)
    ensures p in Declarations(all, declared0) <==> p in all && Fresh(p, declared0)
  {
    if all != [] {
      var done := all[..|all| - 1];
      InDeclarations(done, declared0, p);
      assert all == done + [all[|all| - 1]];
    }
  }

  lemma {:induction false} InEdgesOf(p: Provider, requests: seq<Request>, u: Provider, t: Type)
    ensures PendingEdge(ProviderOwner(u), t) in EdgesOf(p, requests) <==> u == p && One(t) in requests
  {
    if requests != [] {
      var front := requests[..|requests| - 1];
      InEdgesOf(p, front, u, t);
      assert requests == front + [requests[|requests| - 1]];
    }
  }

  lemma {:induction false} InSlicesOf(p: Provider, requests: seq<Request>, u: Provider, t: Type)
    ensures SliceHead(ProviderOwner(u), t) in SlicesOf(p, requests) <==> u == p && All(t) in requests
  {
    if requests != [] {
      var front := requests[..|requests| - 1];
      InSlicesOf(p, front, u, t);
      assert requests == front + [requests[|requests| - 1]];
    }
  }

  /** What is recorded for all of them: the requests of each. */
  lemma {:induction false} InEdgesOfAll(builders: Builders, ps: seq<Provider>, p: Provider, t: Type)
    ensures PendingEdge(ProviderOwner(p), t) in EdgesOfAll(builders, ps) <==>
              p in ps && One(t) in RequestsOf(builders, p)
  {
    if ps != [] {
      var front, last := ps[..|ps| - 1], ps[|ps| - 1];
      InEdgesOfAll(builders, front, p, t);
      InEdgesOf(last, RequestsOf(builders, last), p, t);
      assert ps == front + [last];
    }
  }

  lemma {:induction false} InSlicesOfAll(builders: Builders, ps: seq<Provider>, p: Provider, t: Type)
    ensures SliceHead(ProviderOwner(p), t) in SlicesOfAll(builders, ps) <==>
              p in ps && All(t) in RequestsOf(builders, p)
  {
    if ps != [] {
      var front, last := ps[..|ps| - 1], ps[|ps| - 1];
      InSlicesOfAll(builders, front, p, t);
      InSlicesOf(last, RequestsOf(builders, last), p, t);
      assert ps == front + [last];
    }
  }

  // ---- the order of declaration ----

  function Registrations(tree: Decls, order: seq<ModuleId>): seq<Provider>
    requires forall m :: m in order ==> m in tree
  {
    if order == [] then [] else tree[order[0]].providers + Registrations(tree, order[1..])
  }

  lemma {:induction false} RegistrationsSplit(tree: Decls, a: seq<ModuleId>, b: seq<ModuleId>)
    requires (forall m :: m in a ==> m in tree) && forall m :: m in b ==> m in tree
    ensures Registrations(tree, a + b) == Registrations(tree, a) + Registrations(tree, b)
  {
    if a == [] {
      assert a + b == b;
    } else {
      assert (a + b)[1..] == a[1..] + b;
      RegistrationsSplit(tree, a[1..], b);
    }
  }

  lemma PrefixRegistered(tree: Decls, order: seq<ModuleId>, i: nat)
    requires i < |order| && forall m :: m in order ==> m in tree
    ensures Registrations(tree, order[..i + 1]) == Registrations(tree, order[..i]) + tree[order[i]].providers
              <= Registrations(tree, order)
  {
    assert order[..i + 1] == order[..i] + [order[i]] && order == order[..i + 1] + order[i + 1..];
    RegistrationsSplit(tree, order[..i], [order[i]]);
    RegistrationsSplit(tree, order[..i + 1], order[i + 1..]);
  }

  lemma {:induction false} RegistrationsHold(tree: Decls, order: seq<ModuleId>, p: Provider)
    requires forall m :: m in order ==> m in tree
    ensures p in Registrations(tree, order) <==> exists m :: m in order && p in tree[m].providers
  {
    if order != [] {
      RegistrationsHold(tree, order[1..], p);
      assert forall m :: m in order <==> m == order[0] || m in order[1..];
    }
  }

  lemma RegistrationsAre(tree: Decls, order: seq<ModuleId>)
    requires tree.Keys == Elems(order)
    ensures forall p :: p in Registrations(tree, order) <==> RegisteredIn(tree, p)
  {
    forall p ensures p in Registrations(tree, order) <==> RegisteredIn(tree, p) {
      RegistrationsHold(tree, order, p);
      if m :| Registers(tree, m, p) {
        assert m in order && p in tree[m].providers;
      }
      if m :| m in order && p in tree[m].providers {
        assert m in tree.Keys && Registers(tree, m, p);
      }
    }
  }

  /** q is registered before the first registration of p. */
  ghost predicate Earlier(all: seq<Provider>, q: Provider, p: Provider) {
    exists i :: 0 <= i < |all| && all[i] == q && forall j :: 0 <= j <= i ==> all[j] != p
  }

  /** The providers declared when the builder of p runs: those registered earlier, and those
      declared before Stage 2. */
  ghost function DeclaredBefore(all: seq<Provider>, declared0: set<Provider>, p: Provider): set<Provider> {
    declared0 + set q | q in all && q.Concrete? && Earlier(all, q, p)
  }

  /** No builder panics. */
  ghost predicate AllRun(tree: Decls, owners: map<Provider, ModuleId>, builders: Builders, all: seq<Provider>,
                         declared0: set<Provider>)
  {
    RunUpTo(tree, owners, builders, all, all, declared0)
  }

  ghost predicate RunUpTo(tree: Decls, owners: map<Provider, ModuleId>, builders: Builders, all: seq<Provider>,
                          done: seq<Provider>, declared0: set<Provider>) {
    forall p :: p in done && Fresh(p, declared0) ==>
      BuilderRuns(tree, owners, p, RequestsOf(builders, p), DeclaredBefore(all, declared0, p))
  }

  ghost predicate SeenInOrder(all: seq<Provider>, declared0: set<Provider>, allEdges: seq<PendingAllEdge>,
                              seen: seq<set<Provider>>)
  {
    |seen| == |allEdges| && forall i :: 0 <= i < |seen| ==>
      allEdges[i].owner.ProviderOwner? && seen[i] == DeclaredBefore(all, declared0, allEdges[i].owner.p)
  }

  lemma FreshIsNext(all: seq<Provider>, done: seq<Provider>, declared0: set<Provider>, p: Provider,
                    declared: set<Provider>)
    requires done + [p] <= all
    requires forall q :: q in declared <==> q in declared0 || (q.Concrete? && q in done)
    ensures p in all && (Fresh(p, declared) <==> Fresh(p, declared0) && p !in done)
    ensures Fresh(p, declared) ==> declared == DeclaredBefore(all, declared0, p)
  {
    assert all[..|done|] == done && all[|done|] == p;
    if p !in done {
      forall q ensures q in done <==> Earlier(all, q, p) {
        EarlierIsBefore(all, done, p, q);
      }
      assert forall q :: q in done ==> q in all;
    }
  }

  lemma EarlierIsBefore(all: seq<Provider>, done: seq<Provider>, p: Provider, q: Provider)
    requires done + [p] <= all && p !in done
    ensures q in done <==> Earlier(all, q, p)
  {
    assert all[..|done|] == done && all[|done|] == p;
    if q in done {
      var i :| 0 <= i < |done| && done[i] == q;
      assert all[i] == q && forall j :: 0 <= j <= i ==> all[j] == done[j];
    }
    if i :| 0 <= i < |all| && all[i] == q && forall j :: 0 <= j <= i ==> all[j] != p {
      assert i < |done| && done[i] == q;
    }
  }

  lemma SeenGrows(all: seq<Provider>, declared0: set<Provider>, allEdges: seq<PendingAllEdge>, seen: seq<set<Provider>>,
                  allEdges': seq<PendingAllEdge>, seen': seq<set<Provider>>, p: Provider, d: set<Provider>)
    requires SeenInOrder(all, declared0, allEdges, seen) && allEdges <= allEdges' && seen <= seen'
               && |allEdges'| == |seen'|
    requires forall i :: |seen| <= i < |seen'| ==> allEdges'[i].owner == ProviderOwner(p) && seen'[i] == d
    requires |seen'| > |seen| ==> d == DeclaredBefore(all, declared0, p)
    ensures SeenInOrder(all, declared0, allEdges', seen')
  {
  }

  // ---- which slices get a member that is no singleton ----

  /** All registered providers, as they are seen in the end. */
  ghost function Nodes(all: seq<Provider>): set<Provider> {
    set p | p in all && p.Concrete?
  }

  /** Once its builder has run, a match is seen under any type it will ever have. */
  lemma MatchOfDeclared(tree: Decls, declared: set<Provider>, more: set<Provider>, owner: ModuleId, t: Type,
                        m: Provider)
    requires m in declared && m in more && Matches(tree, declared, owner, t, m)
    ensures Matches(tree, more, owner, t, m)
  {
    var ref :| Unwrap(ref) == m && TypeSeen(ref, declared) == t
            && (ref in tree[owner].providers || exists im :: im in tree[owner].imports && Visible(tree, im, ref));
    assert TypeSeen(ref, more) == t;
  }

  /** A match whose scope is not Singleton, once all builders have run, of a provider registered
      before p. */
  ghost predicate EarlyMatch(tree: Decls, all: seq<Provider>, owner: ModuleId, t: Type, p: Provider, m: Provider) {
    Matches(tree, Nodes(all), owner, t, m) && m.Concrete? && !m.scope.Singleton? && Earlier(all, m, p)
  }

  /** The guard lets an InjectAll of p's builder through if and only if there is no such match. */
  lemma GuardPassesIff(tree: Decls, all: seq<Provider>, owner: ModuleId, t: Type, p: Provider)
    ensures GuardPasses(tree, DeclaredBefore(all, {}, p), owner, t) <==>
              !exists m :: EarlyMatch(tree, all, owner, t, p, m)
  {
    var d := DeclaredBefore(all, {}, p);
    forall m | EarlyMatch(tree, all, owner, t, p, m) ensures !GuardPasses(tree, d, owner, t) {
      MatchOfDeclared(tree, Nodes(all), d, owner, t, m);
    }
    forall m | Matches(tree, d, owner, t, m) && m in d && !m.scope.Singleton?
      ensures EarlyMatch(tree, all, owner, t, p, m) {
      MatchOfDeclared(tree, d, Nodes(all), owner, t, m);
    }
  }

  /** Behind the guard a provider that is no singleton is a member if and only if a view of it as
      the interface is visible: its scope was not looked at. */
  lemma LateMemberIff(tree: Decls, owners: map<Provider, ModuleId>, e: PendingAllEdge, declared: set<Provider>,
                      m: Provider)
    requires SliceRecorded(tree, owners, e, declared) && m.Concrete? && !m.scope.Singleton?
    ensures m in e.matches <==> Matches(tree, {}, owners[e.owner.p], e.iface, m)
  {
    var owner := owners[e.owner.p];
    if m in e.matches {
      var ref :| Unwrap(ref) == m && TypeSeen(ref, declared) == e.iface
              && (ref in tree[owner].providers || exists im :: im in tree[owner].imports && Visible(tree, im, ref));
      assert ref.View?;
    }
    if Matches(tree, {}, owner, e.iface, m) {
      var ref :| Unwrap(ref) == m && TypeSeen(ref, {}) == e.iface
              && (ref in tree[owner].providers || exists im :: im in tree[owner].imports && Visible(tree, im, ref));
      assert ref.View?;
    }
  }

  /** A module that registers a consumer of an interface, a transient provider and its view. */
  function ConsumerFirst(consumer: Provider, adapter: Provider, view: Provider): Decls {
    map[0 := ModuleDecl(None, [], [consumer, adapter, view], [], [])]
  }

  function AdapterFirst(consumer: Provider, adapter: Provider, view: Provider): Decls {
    map[0 := ModuleDecl(None, [], [adapter, consumer, view], [], [])]
  }

  /** Registered after its consumer, a transient adapter becomes a member of the consumer's slice;
      registered before it, it makes the same call panic. */
  lemma TransientMemberSlipsThrough(consumer: Provider, adapter: Provider, view: Provider, t: Type)
    requires consumer.Concrete? && adapter.Concrete? && adapter.scope.Transient? && consumer != adapter
    requires t.Interface? && view == View(view.id, adapter, t)
    ensures var tree := ConsumerFirst(consumer, adapter, view); var declared: set<Provider> := {};
            && DeclaredBefore(tree[0].providers, {}, consumer) == declared
            && GuardPasses(tree, declared, 0, t) && Matches(tree, declared, 0, t, adapter)
    ensures var tree := AdapterFirst(consumer, adapter, view);
            DeclaredBefore(tree[0].providers, {}, consumer) == {adapter} && !GuardPasses(tree, {adapter}, 0, t)
  {
    var first, second := ConsumerFirst(consumer, adapter, view), AdapterFirst(consumer, adapter, view);
    assert Unwrap(view) == adapter && TypeSeen(view, {}) == t && view in first[0].providers;
    assert Unwrap(view) == adapter && TypeSeen(view, {adapter}) == t && view in second[0].providers;
    assert Matches(second, {adapter}, 0, t, adapter);
    var ps := second[0].providers;
    assert ps[0] == adapter && Earlier(ps, adapter, consumer);
    assert first[0].providers[0] == consumer && ps[1] == consumer;
  }

  // ---- the check of the views ----

  /** The wrapped provider has been declared, and implements the interface. */
  predicate ViewOk(p: Provider, declared: set<Provider>, implements: set<(Type, Type)>) {
    p.View? ==> TypeSeen(p.inner, declared) != NoType && (TypeSeen(p.inner, declared), p.asType) in implements
  }

  ghost predicate Guarded(tree: Decls, declared: set<Provider>, implements: set<(Type, Type)>) {
    forall p :: RegisteredIn(tree, p) ==> ViewOk(p, declared, implements)
  }

  /** Nil exactly if every registered view wraps a declared provider that implements it. */
  method ValidateProviderAsRefs(tree: Decls, order: seq<ModuleId>, declared: set<Provider>,
                                implements: set<(Type, Type)>) returns (bad: Option<Provider>)
    requires tree.Keys == Elems(order)
    ensures bad.None? <==> Guarded(tree, declared, implements)
    ensures bad.Some? ==> RegisteredIn(tree, bad.value) && !ViewOk(bad.value, declared, implements)
  {
    for i := 0 to |order|
      invariant forall m, p :: m in order[..i] && p in tree[m].providers ==> ViewOk(p, declared, implements)
    {
      var m := order[i];
      assert m in order && order[..i + 1] == order[..i] + [m];
      var ps := tree[m].providers;
      for j := 0 to |ps|
        invariant forall p :: p in ps[..j] ==> ViewOk(p, declared, implements)
      {
        if !ViewOk(ps[j], declared, implements) {
          assert Registers(tree, m, ps[j]);
          return Some(ps[j]);
        }
        assert ps[..j + 1] == ps[..j] + [ps[j]];
      }
      assert ps[..|ps|] == ps;
    }
    assert order[..|order|] == order;
    forall p | RegisteredIn(tree, p) ensures ViewOk(p, declared, implements) {
      var m :| Registers(tree, m, p);
      assert m in order;
    }
    return None;
  }

  /** Behind this check every slice member has been declared and fits the slice. */
  lemma GuardedMember(tree: Decls, owners: map<Provider, ModuleId>, e: PendingAllEdge, seen: set<Provider>,
                      declared: set<Provider>, implements: set<(Type, Type)>, m: Provider)
    requires AssembledTree(tree) && ViewsWrapProviders(tree) && SliceRecorded(tree, owners, e, seen)
    requires Guarded(tree, declared, implements) && m in e.matches && forall p :: p in seen ==> p in declared
    ensures m in declared && m.Concrete? && Assignable(implements, m.ResolvedType(), e.iface)
  {
    var ref := MatchIsRegistered(tree, seen, owners[e.owner.p], e.iface, m);
    MatchIsProvider(tree, seen, owners[e.owner.p], e.iface, m);
    assert ViewOk(ref, declared, implements);
  }

  /** So after New's check every slice member is a node of the stage, but for providers that only
      an earlier bootstrap of the process has declared. */
  lemma GuardKeepsSliceMembers(tree: Decls, owners: map<Provider, ModuleId>, e: PendingAllEdge, seen: set<Provider>,
                               declared0: set<Provider>, declared: set<Provider>, implements: set<(Type, Type)>,
                               m: Provider)
    requires AssembledTree(tree) && ViewsWrapProviders(tree) && SliceRecorded(tree, owners, e, seen)
    requires forall p :: p in declared <==> p in declared0 || (p.Concrete? && RegisteredIn(tree, p))
    requires Guarded(tree, declared, implements) && m in e.matches && forall p :: p in seen ==> p in declared
    ensures m.Concrete? && (RegisteredIn(tree, m) || m in declared0)
  {
    GuardedMember(tree, owners, e, seen, declared, implements, m);
  }

  /** Without the check, as in a test application, a provider that only a view of it registers can
      be matched: no InjectAll can match one if and only if every registered view wraps a
      registered provider. */
  lemma MatchesAreNodesIff(tree: Decls)
    requires AssembledTree(tree) && ViewsWrapProviders(tree)
    ensures (forall declared, owner, t, m ::
              Matches(tree, declared, owner, t, m) && (forall p :: p in declared ==> RegisteredIn(tree, p)) ==>
              RegisteredIn(tree, m))
       <==> (forall p :: RegisteredIn(tree, p) && p.View? ==> RegisteredIn(tree, p.inner))
  {
    if forall p :: RegisteredIn(tree, p) && p.View? ==> RegisteredIn(tree, p.inner) {
      forall declared, owner, t, m | Matches(tree, declared, owner, t, m)
          && (forall p :: p in declared ==> RegisteredIn(tree, p))
        ensures RegisteredIn(tree, m) {
        var ref := MatchIsRegistered(tree, declared, owner, t, m);
      }
    } else {
      var p :| RegisteredIn(tree, p) && p.View? && !RegisteredIn(tree, p.inner);
      var x :| Registers(tree, x, p);
      assert Unwrap(p) == p.inner && TypeSeen(p, {}) == p.asType && p in tree[x].providers;
      assert Matches(tree, {}, x, p.asType, p.inner);
    }
  }

  /** That condition is what the check asks, where all providers have a type and implement the
      interfaces they are viewed as. */
  lemma GuardAsksForRegistration(tree: Decls, declared: set<Provider>, implements: set<(Type, Type)>)
    requires ViewsWrapProviders(tree) && forall p :: p in declared <==> p.Concrete? && RegisteredIn(tree, p)
    requires forall p :: RegisteredIn(tree, p) && p.View? ==>
               p.inner.typ != NoType && (p.inner.typ, p.asType) in implements
    ensures Guarded(tree, declared, implements) <==>
              forall p :: RegisteredIn(tree, p) && p.View? ==> RegisteredIn(tree, p.inner)
  {
    forall p | RegisteredIn(tree, p) && p.View?
      ensures ViewOk(p, declared, implements) <==> RegisteredIn(tree, p.inner) {
      var m :| Registers(tree, m, p);
    }
  }
}
