// internal/module: modules, the builder calls that fill them in, and Stage 1 assembly
// (module.go, assemble.go). A module id plays the part of a *Module pointer.
module Modules {
  import opened Graphs

  type ModuleId = nat

  /** What reflection tells apart: NoType is the nil type of a provider without constructor. */
  datatype Type = NoType | Pointer(name: nat) | Interface(name: nat) | Plain(name: nat)

  /** A value can be stored where its own type, or one that it implements, is expected. */
  predicate Assignable(implements: set<(Type, Type)>, from: Type, to: Type) {
    from == to || (from, to) in implements
  }

  datatype Scope = Singleton | Transient | Request

  /** A ProviderRef: a provider with a constructor, or a ProviderAs view that reports an
      interface for the provider it wraps. */
  datatype Provider =
    | Concrete(id: nat, typ: Type, scope: Scope)
    | View(id: nat, inner: Provider, asType: Type)
  {
    function ResolvedType(): Type {
      match this
      case Concrete(_, typ, _) => typ
      case View(_, _, asType) => asType
    }
  }

  datatype Token = ProviderToken(p: Provider) | ModuleToken(m: ModuleId)

  /** A builder call that a module function makes on its own module. */
  datatype Call =
    | Imports(mods: seq<ModuleId>)
    | Providers(providers: seq<Provider>)
    | Exports(tokens: seq<Token>)

  datatype ModuleDecl = ModuleDecl(
    fn: Option<seq<Call>>,
    imports: seq<ModuleId>,
    providers: seq<Provider>,
    exports: seq<Provider>,
    exportedModules: seq<ModuleId>)

  type Decls = map<ModuleId, ModuleDecl>

  function ProviderTokens(tokens: seq<Token>): seq<Provider> {
    if tokens == [] then []
    else (if tokens[0].ProviderToken? then [tokens[0].p] else []) + ProviderTokens(tokens[1..])
  }

  function ModuleTokens(tokens: seq<Token>): seq<ModuleId> {
    if tokens == [] then []
    else (if tokens[0].ModuleToken? then [tokens[0].m] else []) + ModuleTokens(tokens[1..])
  }

  function ApplyCall(d: ModuleDecl, c: Call): ModuleDecl {
    match c
    case Imports(mods) => d.(imports := d.imports + mods)
    case Providers(ps) => d.(providers := d.providers + ps)
    case Exports(ts) => d.(exports := d.exports + ProviderTokens(ts),
                           exportedModules := d.exportedModules + ModuleTokens(ts))
  }

  function ApplyCalls(d: ModuleDecl, calls: seq<Call>): (r: ModuleDecl)
    ensures r.fn == d.fn
    decreases |calls|
  {
    if calls == [] then d else ApplyCalls(ApplyCall(d, calls[0]), calls[1..])
  }

  /** The module once its function has run, exactly once. */
  function Assembled(d: ModuleDecl): ModuleDecl {
    match d.fn
    case None => d
    case Some(calls) => ApplyCalls(d, calls)
  }

  function ImportsIn(calls: seq<Call>): seq<ModuleId> {
    if calls == [] then [] else (if calls[0].Imports? then calls[0].mods else []) + ImportsIn(calls[1..])
  }

  function ProvidersIn(calls: seq<Call>): seq<Provider> {
    if calls == [] then [] else (if calls[0].Providers? then calls[0].providers else []) + ProvidersIn(calls[1..])
  }

  function TokensIn(calls: seq<Call>): seq<Token> {
    if calls == [] then [] else (if calls[0].Exports? then calls[0].tokens else []) + TokensIn(calls[1..])
  }

  /** Tokens are sorted into providers and modules in the order they are listed in. */
  lemma {:induction false} TokensInOrder(a: seq<Token>, b: seq<Token>)
    ensures ProviderTokens(a + b) == ProviderTokens(a) + ProviderTokens(b)
    ensures ModuleTokens(a + b) == ModuleTokens(a) + ModuleTokens(b)
  {
    if a == [] {
      assert a + b == b;
    } else {
      TokensInOrder(a[1..], b);
      assert (a + b)[1..] == a[1..] + b && (a + b)[0] == a[0];
      ConcatIsAssociative(if a[0].ProviderToken? then [a[0].p] else [], ProviderTokens(a[1..]), ProviderTokens(b));
      ConcatIsAssociative(if a[0].ModuleToken? then [a[0].m] else [], ModuleTokens(a[1..]), ModuleTokens(b));
    }
  }

  lemma TokenIsListed(t: Token)
    ensures ProviderTokens([t]) == if t.ProviderToken? then [t.p] else []
    ensures ModuleTokens([t]) == if t.ModuleToken? then [t.m] else []
  {
    assert [t][1..] == [];
  }

  /** What some calls add, kind by kind, behind what is there. */
  ghost predicate Adds(d: ModuleDecl, calls: seq<Call>, r: ModuleDecl) {
    && r.imports == d.imports + ImportsIn(calls) && r.providers == d.providers + ProvidersIn(calls)
    && r.exports == d.exports + ProviderTokens(TokensIn(calls))
    && r.exportedModules == d.exportedModules + ModuleTokens(TokensIn(calls))
  }

  lemma OneCallAdds(d: ModuleDecl, c: Call)
    ensures Adds(d, [c], ApplyCall(d, c))
  {
    assert [c][1..] == [] && ImportsIn([]) == [] && ProvidersIn([]) == [] && TokensIn([]) == [];
    assert ProviderTokens([]) == [] && ModuleTokens([]) == [];
    assert ImportsIn([c]) == (if c.Imports? then c.mods else []);
    assert ProvidersIn([c]) == (if c.Providers? then c.providers else []);
    assert TokensIn([c]) == (if c.Exports? then c.tokens else []);
    match c
    case Imports(_) =>
    case Providers(_) =>
    case Exports(_) =>
  }

  lemma FirstThenRest(calls: seq<Call>)
    requires calls != []
    ensures ImportsIn(calls) == ImportsIn([calls[0]]) + ImportsIn(calls[1..])
    ensures ProvidersIn(calls) == ProvidersIn([calls[0]]) + ProvidersIn(calls[1..])
    ensures TokensIn(calls) == TokensIn([calls[0]]) + TokensIn(calls[1..])
  {
    assert [calls[0]][1..] == [];
  }

  lemma AddsThenAdds(d: ModuleDecl, calls: seq<Call>, middle: ModuleDecl, r: ModuleDecl)
    requires calls != [] && Adds(d, [calls[0]], middle) && Adds(middle, calls[1..], r)
    ensures Adds(d, calls, r)
  {
    var first, rest := [calls[0]], calls[1..];
    FirstThenRest(calls);
    ConcatIsAssociative(d.imports, ImportsIn(first), ImportsIn(rest));
    ConcatIsAssociative(d.providers, ProvidersIn(first), ProvidersIn(rest));
    TokensInOrder(TokensIn(first), TokensIn(rest));
    ConcatIsAssociative(d.exports, ProviderTokens(TokensIn(first)), ProviderTokens(TokensIn(rest)));
    ConcatIsAssociative(d.exportedModules, ModuleTokens(TokensIn(first)), ModuleTokens(TokensIn(rest)));
  }

  /** A module function adds what its calls list, kind by kind, behind what is there, in the order of
      the calls. */
  lemma {:induction false} CallsAddInOrder(d: ModuleDecl, calls: seq<Call>)
    ensures Adds(d, calls, ApplyCalls(d, calls))
    decreases |calls|
  {
    if calls != [] {
      var middle := ApplyCall(d, calls[0]);
      OneCallAdds(d, calls[0]);
      CallsAddInOrder(middle, calls[1..]);
      AddsThenAdds(d, calls, middle, ApplyCalls(d, calls));
    }
  }

  function ImportGraph(decls: Decls): Graph<ModuleId> {
    map m | m in decls :: Assembled(decls[m]).imports
  }

  /** Every module that assembly can meet exists. */
  ghost predicate ImportsClosed(decls: Decls) {
    ClosedUnder(ImportGraph(decls), decls.Keys)
  }

  // ---- breadth-first order ----

  /** Whatever number of edges leads to y, no more lead to x. */
  ghost predicate NoFarther(g: Graph<ModuleId>, root: ModuleId, x: ModuleId, y: ModuleId) {
    forall n: nat :: Steps(g, root, y, n) ==> exists m: nat :: m <= n && Steps(g, root, x, m)
  }

  /** The reachable modules, each once, root first, in nondecreasing import distance. */
  ghost predicate ByDistance(g: Graph<ModuleId>, root: ModuleId, order: seq<ModuleId>) {
    && order != [] && order[0] == root && NoDup(order)
    && (forall x :: x in order <==> Reaches(g, root, x))
    && (forall i, j :: 0 <= i < j < |order| ==> NoFarther(g, root, order[i], order[j]))
  }

  /** A module met by the walk, with the depth it was met at. */
  datatype Visit = Visit(m: ModuleId, depth: nat)

  /** Module y is on the trail, at depth n at most. */
  ghost predicate Due(trail: seq<Visit>, y: ModuleId, n: nat) {
    exists i :: 0 <= i < |trail| && trail[i].m == y && trail[i].depth <= n
  }

  /** The trail holds the k visited modules and then the queue. Depths do not decrease along
      it, and the queue spans two levels at most. */
  ghost predicate Layered(root: ModuleId, trail: seq<Visit>, k: nat) {
    && k <= |trail| && trail != [] && trail[0] == Visit(root, 0)
    && (forall i, j :: 0 <= i < j < k ==> trail[i].m != trail[j].m)
    && (forall i, j :: 0 <= i < j < |trail| ==> trail[i].depth <= trail[j].depth)
    && (forall j :: k <= j < |trail| ==> trail[j].depth <= trail[k].depth + 1)
  }

  ghost predicate Found(g: Graph<ModuleId>, root: ModuleId, trail: seq<Visit>) {
    forall i :: 0 <= i < |trail| ==> Steps(g, root, trail[i].m, trail[i].depth)
  }

  /** Every import of a visited module is on the trail, one level below at the latest. */
  ghost predicate Covered(g: Graph<ModuleId>, trail: seq<Visit>, k: nat)
    requires k <= |trail|
  {
    forall i, y :: 0 <= i < k && y in Deps(g, trail[i].m) ==> Due(trail, y, trail[i].depth + 1)
  }

  ghost predicate WalkState(g: Graph<ModuleId>, root: ModuleId, trail: seq<Visit>, k: nat) {
    Layered(root, trail, k) && Found(g, root, trail) && Covered(g, trail, k)
  }

  ghost function Without(trail: seq<Visit>, k: nat): (r: seq<Visit>)
    requires k < |trail|
    ensures |r| == |trail| - 1 && forall j :: 0 <= j < |r| ==> r[j] == trail[if j < k then j else j + 1]
  {
    trail[..k] + trail[k + 1..]
  }

  lemma DueWithout(trail: seq<Visit>, k: nat, seen: nat, y: ModuleId, n: nat)
    requires seen < k < |trail| && trail[seen].m == trail[k].m && trail[seen].depth <= trail[k].depth
    requires Due(trail, y, n)
    ensures Due(Without(trail, k), y, n)
  {
    var rest := Without(trail, k);
    var i :| 0 <= i < |trail| && trail[i].m == y && trail[i].depth <= n;
    if i == k {
      assert rest[seen] == trail[seen];
    } else {
      assert rest[if i < k then i else i - 1] == trail[i];
    }
  }

  lemma SkipVisited(g: Graph<ModuleId>, root: ModuleId, trail: seq<Visit>, k: nat, seen: nat)
    requires WalkState(g, root, trail, k) && seen < k < |trail| && trail[seen].m == trail[k].m
    ensures WalkState(g, root, Without(trail, k), k)
  {
    var rest := Without(trail, k);
    assert Layered(root, rest, k);
    forall i, y | 0 <= i < k && y in Deps(g, rest[i].m) ensures Due(rest, y, rest[i].depth + 1) {
      assert rest[i] == trail[i];
      DueWithout(trail, k, seen, y, trail[i].depth + 1);
    }
  }

  /** The trail once the imports of its k-th module are queued. */
  ghost function Lengthened(g: Graph<ModuleId>, trail: seq<Visit>, k: nat): (r: seq<Visit>)
    requires k < |trail|
    ensures var deps := Deps(g, trail[k].m);
            && |r| == |trail| + |deps|
            && (forall i :: 0 <= i < |trail| ==> r[i] == trail[i])
            && (forall i :: |trail| <= i < |r| ==> r[i] == Visit(deps[i - |trail|], trail[k].depth + 1))
  {
    var deps := Deps(g, trail[k].m);
    trail + seq(|deps|, i requires 0 <= i < |deps| => Visit(deps[i], trail[k].depth + 1))
  }

  lemma VisitKeepsFound(g: Graph<ModuleId>, root: ModuleId, trail: seq<Visit>, k: nat)
    requires Found(g, root, trail) && k < |trail|
    ensures Found(g, root, Lengthened(g, trail, k))
  {
  }

  lemma VisitKeepsCovered(g: Graph<ModuleId>, trail: seq<Visit>, k: nat)
    requires k < |trail| && Covered(g, trail, k)
    ensures Covered(g, Lengthened(g, trail, k), k + 1)
  {
    var deps := Deps(g, trail[k].m);
    var longer := Lengthened(g, trail, k);
    forall i, y | 0 <= i < k + 1 && y in Deps(g, longer[i].m) ensures Due(longer, y, longer[i].depth + 1) {
      if i == k {
        var j :| 0 <= j < |deps| && deps[j] == y;
        assert longer[|trail| + j].m == y;
      } else {
        assert Due(trail, y, trail[i].depth + 1);
        var j :| 0 <= j < |trail| && trail[j].m == y && trail[j].depth <= trail[i].depth + 1;
        assert longer[j] == trail[j];
      }
    }
  }

  lemma VisitNext(g: Graph<ModuleId>, root: ModuleId, trail: seq<Visit>, k: nat)
    requires WalkState(g, root, trail, k) && k < |trail|
    requires forall i :: 0 <= i < k ==> trail[i].m != trail[k].m
    ensures WalkState(g, root, Lengthened(g, trail, k), k + 1)
  {
    assert Layered(root, Lengthened(g, trail, k), k + 1);
    VisitKeepsFound(g, root, trail, k);
    VisitKeepsCovered(g, trail, k);
  }

  /** With the queue drained, no module was found deeper than its distance. */
  lemma {:induction false} FoundAtDistance(g: Graph<ModuleId>, root: ModuleId, trail: seq<Visit>, x: ModuleId, n: nat)
    requires trail != [] && trail[0] == Visit(root, 0) && Covered(g, trail, |trail|)
    requires Steps(g, root, x, n)
    ensures Due(trail, x, n)
    decreases n
  {
    if n > 0 {
      var y :| Steps(g, root, y, n - 1) && x in Deps(g, y);
      FoundAtDistance(g, root, trail, y, n - 1);
      var i :| 0 <= i < |trail| && trail[i].m == y && trail[i].depth <= n - 1;
      assert Due(trail, x, trail[i].depth + 1);
    }
  }

  lemma DrainedIsByDistance(g: Graph<ModuleId>, root: ModuleId, trail: seq<Visit>, order: seq<ModuleId>)
    requires WalkState(g, root, trail, |trail|)
    requires |order| == |trail| && forall i :: 0 <= i < |order| ==> order[i] == trail[i].m
    ensures ByDistance(g, root, order)
  {
    forall x ensures x in order <==> Reaches(g, root, x) {
      if n: nat :| Steps(g, root, x, n) {
        FoundAtDistance(g, root, trail, x, n);
      }
    }
    forall i, j | 0 <= i < j < |order| ensures NoFarther(g, root, order[i], order[j]) {
      forall n: nat | Steps(g, root, order[j], n) ensures exists m: nat :: m <= n && Steps(g, root, order[i], m) {
        FoundAtDistance(g, root, trail, order[j], n);
        assert trail[i].depth <= trail[j].depth <= n;
        assert Steps(g, root, order[i], trail[i].depth);
      }
    }
  }

  /** What the loop keeps: the visited order and the queue are the two parts of a trail. */
  ghost predicate Frontier(g: Graph<ModuleId>, root: ModuleId, order: seq<ModuleId>, queue: seq<ModuleId>,
                           trail: seq<Visit>)
  {
    WalkState(g, root, trail, |order|) && Splits(trail, order, queue)
  }

  ghost predicate Splits(trail: seq<Visit>, order: seq<ModuleId>, queue: seq<ModuleId>) {
    && |trail| == |order| + |queue|
    && (forall i :: 0 <= i < |order| ==> order[i] == trail[i].m)
    && (forall i :: 0 <= i < |queue| ==> queue[i] == trail[|order| + i].m)
  }

  lemma DropVisited(g: Graph<ModuleId>, root: ModuleId, order: seq<ModuleId>, queue: seq<ModuleId>, trail: seq<Visit>)
    requires Frontier(g, root, order, queue, trail) && queue != [] && queue[0] in order
    ensures Frontier(g, root, order, queue[1..], Without(trail, |order|))
  {
    var seen :| 0 <= seen < |order| && order[seen] == queue[0];
    SkipVisited(g, root, trail, |order|, seen);
  }

  lemma VisitKeepsSplit(g: Graph<ModuleId>, order: seq<ModuleId>, queue: seq<ModuleId>, trail: seq<Visit>)
    requires Splits(trail, order, queue) && queue != []
    ensures Splits(Lengthened(g, trail, |order|), order + [queue[0]], queue[1..] + Deps(g, queue[0]))
  {
    assert trail[|order|].m == queue[0];
  }

  lemma VisitFront(g: Graph<ModuleId>, root: ModuleId, order: seq<ModuleId>, queue: seq<ModuleId>, trail: seq<Visit>)
    requires Frontier(g, root, order, queue, trail) && queue != [] && queue[0] !in order
    ensures Frontier(g, root, order + [queue[0]], queue[1..] + Deps(g, queue[0]), Lengthened(g, trail, |order|))
  {
    assert trail[|order|].m == queue[0];
    VisitNext(g, root, trail, |order|);
    VisitKeepsSplit(g, order, queue, trail);
  }

  // ---- export validation ----

  datatype AssembleError = UndeclaredExport(m: ModuleId, p: Provider) | UnimportedReexport(m: ModuleId, re: ModuleId)

  datatype AssembleResult = Ok(order: seq<ModuleId>) | Err(error: AssembleError)

  /** A module exports its own providers only, and re-exports only what it imports. */
  predicate ExportsValid(d: ModuleDecl) {
    && (forall p :: p in d.exports ==> p in d.providers)
    && (forall re :: re in d.exportedModules ==> re in d.imports)
  }

  ghost predicate Justifies(decls: Decls, e: AssembleError) {
    && e.m in decls
    && (e.UndeclaredExport? ==> e.p in decls[e.m].exports && e.p !in decls[e.m].providers)
    && (e.UnimportedReexport? ==> e.re in decls[e.m].exportedModules && e.re !in decls[e.m].imports)
  }

  method ValidateExports(decls: Decls, m: ModuleId) returns (err: Option<AssembleError>)
    requires m in decls
    ensures err.None? <==> ExportsValid(decls[m])
    ensures err.Some? ==> err.value.m == m && Justifies(decls, err.value)
  {
    var d := decls[m];
    var declared: set<Provider> := {};
    for i := 0 to |d.providers|
      invariant forall p :: p in declared <==> p in d.providers[..i]
    {
      declared := declared + {d.providers[i]};
    }
    for i := 0 to |d.exports|
      invariant forall p :: p in d.exports[..i] ==> p in d.providers
    {
      if d.exports[i] !in declared {
        assert d.exports[i] in d.exports;
        return Some(UndeclaredExport(m, d.exports[i]));
      }
    }
    var imported: set<ModuleId> := {};
    for i := 0 to |d.imports|
      invariant forall im :: im in imported <==> im in d.imports[..i]
    {
      imported := imported + {d.imports[i]};
    }
    for i := 0 to |d.exportedModules|
      invariant forall re :: re in d.exportedModules[..i] ==> re in d.imports
    {
      if d.exportedModules[i] !in imported {
        assert d.exportedModules[i] in d.exportedModules;
        return Some(UnimportedReexport(m, d.exportedModules[i]));
      }
    }
    return None;
  }

  // ---- assembly ----

  predicate Registers(decls: Decls, m: ModuleId, p: Provider) {
    m in decls && p in decls[m].providers
  }

  ghost predicate LastRegistrar(decls: Decls, order: seq<ModuleId>, i: nat, p: Provider) {
    i < |order| && Registers(decls, order[i], p) && forall j :: i < j < |order| ==> !Registers(decls, order[j], p)
  }

  /** The last module of the order that registers a provider owns it. */
  ghost predicate OwnersWired(decls: Decls, order: seq<ModuleId>, owner: map<Provider, ModuleId>) {
    forall i: nat, p :: LastRegistrar(decls, order, i, p) ==> p in owner && owner[p] == order[i]
  }

  lemma OwnersWiredExtend(decls: Decls, order: seq<ModuleId>, owner: map<Provider, ModuleId>, m: ModuleId,
                          decls1: Decls, owner1: map<Provider, ModuleId>)
    requires OwnersWired(decls, order, owner) && m !in order && m in decls1
    requires forall x, p :: x != m ==> (Registers(decls1, x, p) <==> Registers(decls, x, p))
    requires forall p :: p in owner1 <==> p in owner || p in decls1[m].providers
    requires forall p :: p in owner1 ==> owner1[p] == if p in decls1[m].providers then m else owner[p]
    ensures OwnersWired(decls1, order + [m], owner1)
  {
    var longer := order + [m];
    forall i: nat, p | LastRegistrar(decls1, longer, i, p) ensures p in owner1 && owner1[p] == longer[i] {
      if i < |order| {
        assert longer[|order|] == m && !Registers(decls1, m, p);
        forall j | i < j < |order| ensures !Registers(decls, order[j], p) {
          assert longer[j] == order[j];
        }
        assert LastRegistrar(decls, order, i, p);
      }
    }
  }

  /** Exactly the modules of the order have run their function, each once. */
  ghost predicate RanOnce(before: Decls, after: Decls, order: seq<ModuleId>) {
    && after.Keys == before.Keys
    && forall m :: m in before ==> after[m] == if m in order then Assembled(before[m]) else before[m]
  }

  /** Success returns the whole order and means that every export list is valid; a failure
      names an offending entry of a visited module. */
  ghost predicate Outcome(decls: Decls, order: seq<ModuleId>, r: AssembleResult) {
    if r.Ok? then r.order == order && forall m :: m in order ==> m in decls && ExportsValid(decls[m])
    else r.error.m in order && Justifies(decls, r.error)
  }

  class ModuleStore {
    var decls: Decls
    var owner: map<Provider, ModuleId>

    method Imports(m: ModuleId, mods: seq<ModuleId>)
      requires m in decls
      modifies `decls
      ensures decls == old(decls)[m := ApplyCall(old(decls)[m], Call.Imports(mods))]
    {
      var d := decls[m];
      for i := 0 to |mods|
        invariant m in decls
        invariant decls == old(decls)[m := decls[m]]
        invariant decls[m] == d.(imports := d.imports + mods[..i])
      {
        assert d.imports + mods[..i + 1] == (d.imports + mods[..i]) + [mods[i]];
        decls := decls[m := decls[m].(imports := decls[m].imports + [mods[i]])];
      }
      assert mods[..|mods|] == mods;
    }

    method Providers(m: ModuleId, ps: seq<Provider>)
      requires m in decls
      modifies `decls
      ensures decls == old(decls)[m := ApplyCall(old(decls)[m], Call.Providers(ps))]
    {
      var d := decls[m];
      for i := 0 to |ps|
        invariant m in decls
        invariant decls == old(decls)[m := decls[m]]
        invariant decls[m] == d.(providers := d.providers + ps[..i])
      {
        assert d.providers + ps[..i + 1] == (d.providers + ps[..i]) + [ps[i]];
        decls := decls[m := decls[m].(providers := decls[m].providers + [ps[i]])];
      }
      assert ps[..|ps|] == ps;
    }

    method Exports(m: ModuleId, tokens: seq<Token>)
      requires m in decls
      modifies `decls
      ensures decls == old(decls)[m := ApplyCall(old(decls)[m], Call.Exports(tokens))]
    {
      var d := decls[m];
      for i := 0 to |tokens|
        invariant m in decls
        invariant decls == old(decls)[m := decls[m]]
        invariant ApplyCall(decls[m], Call.Exports(tokens[i..])) == ApplyCall(d, Call.Exports(tokens))
      {
        var now := decls[m];
        assert tokens[i..][0] == tokens[i] && tokens[i..][1..] == tokens[i + 1..];
        match tokens[i]
        case ProviderToken(p) =>
          assert now.exports + ProviderTokens(tokens[i..]) == (now.exports + [p]) + ProviderTokens(tokens[i + 1..]);
          decls := decls[m := now.(exports := now.exports + [p])];
        case ModuleToken(re) =>
          assert now.exportedModules + ModuleTokens(tokens[i..])
              == (now.exportedModules + [re]) + ModuleTokens(tokens[i + 1..]);
          decls := decls[m := now.(exportedModules := now.exportedModules + [re])];
      }
      assert tokens[|tokens|..] == [];
      assert decls[m].exports + [] == decls[m].exports && decls[m].exportedModules + [] == decls[m].exportedModules;
    }

    /** Runs the function that a module was created with. */
    method RunFn(m: ModuleId)
      requires m in decls
      modifies `decls
      ensures decls == old(decls)[m := Assembled(old(decls)[m])]
    {
      if decls[m].fn.None? {
        return;
      }
      var calls, d := decls[m].fn.value, decls[m];
      for i := 0 to |calls|
        invariant m in decls
        invariant decls == old(decls)[m := decls[m]]
        invariant ApplyCalls(decls[m], calls[i..]) == ApplyCalls(d, calls)
      {
        assert calls[i..][0] == calls[i] && calls[i..][1..] == calls[i + 1..];
        match calls[i]
        case Imports(mods) => Imports(m, mods);
        case Providers(ps) => Providers(m, ps);
        case Exports(ts) => Exports(m, ts);
      }
    }

    method SetOwners(m: ModuleId)
      requires m in decls
      modifies `owner
      ensures forall p :: p in owner <==> p in old(owner) || p in decls[m].providers
      ensures forall p :: p in owner ==> owner[p] == if p in decls[m].providers then m else old(owner)[p]
    {
      var ps := decls[m].providers;
      for i := 0 to |ps|
        invariant forall p :: p in owner <==> p in old(owner) || p in ps[..i]
        invariant forall p :: p in owner ==> owner[p] == if p in ps[..i] then m else old(owner)[p]
      {
        owner := owner[ps[i] := m];
      }
      assert ps[..|ps|] == ps;
    }

    /** Runs the function of a module that joins the order, and wires its providers. */
    method Enter(m: ModuleId, ghost before: Decls, ghost order: seq<ModuleId>)
      requires m !in order && m in before
      requires RanOnce(before, decls, order) && OwnersWired(decls, order, owner)
      modifies this
      ensures RanOnce(before, decls, order + [m]) && OwnersWired(decls, order + [m], owner)
      ensures decls[m].imports == Deps(ImportGraph(before), m)
    {
      RunFn(m);
      SetOwners(m);
      OwnersWiredExtend(old(decls), order, old(owner), m, decls, owner);
    }

    method ValidateAll(order: seq<ModuleId>) returns (r: AssembleResult)
      requires Elems(order) <= decls.Keys
      ensures Outcome(decls, order, r)
    {
      for i := 0 to |order|
        invariant forall m :: m in order[..i] ==> m in decls && ExportsValid(decls[m])
      {
        assert order[i] in order;
        var err := ValidateExports(decls, order[i]);
        if err.Some? {
          return Err(err.value);
        }
        assert order[..i + 1] == order[..i] + [order[i]];
      }
      assert order[..|order|] == order;
      return Ok(order);
    }

    /** What the walk keeps: the frontier of a breadth-first walk, and exactly the modules of the
        order entered. */
    ghost predicate Walking(before: Decls, root: ModuleId, visited: set<ModuleId>, order: seq<ModuleId>,
                            queue: seq<ModuleId>, trail: seq<Visit>)
      reads this
    {
      && Frontier(ImportGraph(before), root, order, queue, trail)
      && visited == Elems(order) && visited <= before.Keys && Elems(queue) <= before.Keys
      && RanOnce(before, decls, order) && OwnersWired(decls, order, owner)
    }

    lemma WalkStarts(root: ModuleId)
      requires root in decls
      ensures Walking(decls, root, {}, [], [root], [Visit(root, 0)])
    {
      assert Steps(ImportGraph(decls), root, root, 0);
    }

    lemma WalkSkips(before: Decls, root: ModuleId, visited: set<ModuleId>, order: seq<ModuleId>, queue: seq<ModuleId>,
                    trail: seq<Visit>)
      requires Walking(before, root, visited, order, queue, trail) && queue != [] && queue[0] in visited
      ensures Walking(before, root, visited, order, queue[1..], Without(trail, |order|))
    {
      DropVisited(ImportGraph(before), root, order, queue, trail);
    }

    method EnterFront(ghost before: Decls, ghost root: ModuleId, ghost visited: set<ModuleId>,
                      ghost order: seq<ModuleId>, queue: seq<ModuleId>, ghost trail: seq<Visit>)
      returns (longer: seq<ModuleId>)
      requires ImportsClosed(before) && Walking(before, root, visited, order, queue, trail) && queue != []
                 && queue[0] !in visited
      modifies this
      ensures Walking(before, root, visited + {queue[0]}, order + [queue[0]], longer,
                Lengthened(ImportGraph(before), trail, |order|))
      ensures queue[0] in before.Keys
    {
      var m := queue[0];
      VisitFront(ImportGraph(before), root, order, queue, trail);
      QueueStaysInside(before, visited, order, queue);
      Enter(m, before, order);
      longer := queue[1..] + decls[m].imports;
    }

    static lemma QueueStaysInside(before: Decls, visited: set<ModuleId>, order: seq<ModuleId>, queue: seq<ModuleId>)
      requires ImportsClosed(before) && queue != [] && Elems(queue) <= before.Keys && visited == Elems(order)
      ensures queue[0] in before && Elems(queue[1..] + Deps(ImportGraph(before), queue[0])) <= before.Keys
      ensures visited + {queue[0]} == Elems(order + [queue[0]])
    {
      assert queue[0] in Elems(queue);
      forall x | x in queue[1..] + Deps(ImportGraph(before), queue[0]) ensures x in before {
        assert x in queue ==> x in Elems(queue);
      }
    }

    /** The breadth-first walk over a graph that the module functions are still writing. */
    method WalkImports(root: ModuleId) returns (order: seq<ModuleId>)
      requires root in decls && ImportsClosed(decls)
      modifies this
      ensures ByDistance(ImportGraph(old(decls)), root, order)
      ensures RanOnce(old(decls), decls, order) && OwnersWired(decls, order, owner) && Elems(order) <= decls.Keys
    {
      ghost var before := decls;
      var visited: set<ModuleId> := {};
      order := [];
      var queue := [root];
      ghost var trail := [Visit(root, 0)];
      WalkStarts(root);
      while queue != []
        invariant Walking(before, root, visited, order, queue, trail)
        decreases before.Keys - visited, |queue|
      {
        var m := queue[0];
        if m in visited {
          WalkSkips(before, root, visited, order, queue, trail);
          queue, trail := queue[1..], Without(trail, |order|);
        } else {
          queue := EnterFront(before, root, visited, order, queue, trail);
          trail := Lengthened(ImportGraph(before), trail, |order|);
          visited, order := visited + {m}, order + [m];
        }
      }
      DrainedIsByDistance(ImportGraph(before), root, trail, order);
    }

    /** Stage 1: the walk, then the check of every visited module's export lists. */
    method Assemble(root: ModuleId) returns (r: AssembleResult, ghost order: seq<ModuleId>)
      requires root in decls && ImportsClosed(decls)
      modifies this
      ensures ByDistance(ImportGraph(old(decls)), root, order)
      ensures RanOnce(old(decls), decls, order) && OwnersWired(decls, order, owner)
      ensures Outcome(decls, order, r)
    {
      var visited := WalkImports(root);
      order := visited;
      r := ValidateAll(visited);
    }
  }
}
