// internal/inject/inject.go: eager construction of a module's own providers from Module.Lazy,
// and how its constructor calls add up with those of the resolution stage.
module LazyInjection {
  import opened Graphs
  import opened Modules
  import opened Resolver
  import opened Bootstrapping
  import opened Injection
  import opened Startup
  import S = Stage3
  import R = Stage3Runs

  /** What a constructor does when it is called: the injections it records itself, single ones and
      slices, and whether it then fails with an error or a panic. */
  datatype Outcome = Outcome(targets: seq<Type>, slices: seq<Type>, fails: bool)

  const RETURNS := Outcome([], [], false)
  const FAILS := Outcome([], [], true)

  /** A constructor call of an eager attempt, and whether its value was kept. */
  datatype EagerCall = EagerCall(p: Provider, kept: bool)

  /** The package state that the attempts of one bootstrap share. */
  datatype Ledger = Ledger(
    declared: set<Provider>,
    edges: seq<PendingEdge>,
    slices: seq<SliceHead>,
    resolved: map<Provider, S.Value>,
    calls: seq<EagerCall>)

  const EMPTY := Ledger({}, [], [], map[], [])

  /** One Inject from a Lazy callback: the providers the module has registered by then, the type,
      how the constructor will behave if it is called, and the providers that have an owner, since
      a module that was visited before registers them as well. */
  datatype Attempt = Attempt(own: seq<Provider>, t: Type, outcome: Outcome, owned: set<Provider>)

  // ---- the steps of an attempt ----

  function DeclareOne(builders: Builders, p: Provider, l: Ledger): Ledger {
    if !Fresh(p, l.declared) then l
    else
      l.(declared := l.declared + {p},
         edges := l.edges + EdgesOf(p, RequestsOf(builders, p)),
         slices := l.slices + SlicesOf(p, RequestsOf(builders, p)))
  }

  /** Every own provider is declared, so that its type can be read. */
  function DeclareOwn(builders: Builders, own: seq<Provider>, l: Ledger): Ledger {
    if own == [] then l
    else DeclareOne(builders, own[|own| - 1], DeclareOwn(builders, own[..|own| - 1], l))
  }

  /** The last own provider of the type. */
  function LastOfType(own: seq<Provider>, t: Type): (r: Option<Provider>)
    ensures r.None? <==> forall p :: p in own ==> p.ResolvedType() != t
    ensures r.Some? ==> r.value in own && r.value.ResolvedType() == t
  {
    if own == [] then None
    else if own[|own| - 1].ResolvedType() == t then Some(own[|own| - 1])
    else LastOfType(own[..|own| - 1], t)
  }

  function SinglesBy(p: Provider, targets: seq<Type>): seq<PendingEdge> {
    seq(|targets|, i requires 0 <= i < |targets| => PendingEdge(ProviderOwner(p), targets[i]))
  }

  function SlicesBy(p: Provider, ifaces: seq<Type>): seq<SliceHead> {
    seq(|ifaces|, i requires 0 <= i < |ifaces| => SliceHead(ProviderOwner(p), ifaces[i]))
  }

  /** InjectAll panics for a provider without an owner. */
  predicate Panics(p: Provider, a: Attempt) {
    a.outcome.fails || (a.outcome.slices != [] && p !in a.owned)
  }

  /** A value is kept unless the constructor failed or recorded a single injection; slices pass. */
  predicate Keeps(p: Provider, a: Attempt) {
    !Panics(p, a) && a.outcome.targets == []
  }

  /** The constructor of p is called. */
  function CallEagerly(l: Ledger, p: Provider, a: Attempt): Ledger {
    Ledger(l.declared,
           l.edges + SinglesBy(p, a.outcome.targets),
           l.slices + SlicesBy(p, if p in a.owned then a.outcome.slices else []),
           if Keeps(p, a) then l.resolved[p := S.Eager(p)] else l.resolved,
           l.calls + [EagerCall(p, Keeps(p, a))])
  }

  /** The attempt is for p, and p is of a kind that can be constructed eagerly. */
  predicate Tries(a: Attempt, p: Provider) {
    a.t.Pointer? && LastOfType(a.own, a.t) == Some(p) && p.Concrete? && p.scope.Singleton?
  }

  function After(builders: Builders, l: Ledger, a: Attempt): Ledger {
    if !a.t.Pointer? then l
    else
      var d, found := DeclareOwn(builders, a.own, l), LastOfType(a.own, a.t);
      if found.Some? && Tries(a, found.value) && found.value !in d.resolved then CallEagerly(d, found.value, a) else d
  }

  /** The value the attempt returns, if it does not panic. */
  function ValueAfter(builders: Builders, l: Ledger, a: Attempt): Option<S.Value> {
    if !a.t.Pointer? then None
    else
      var found, resolved := LastOfType(a.own, a.t), After(builders, l, a).resolved;
      if found.Some? && found.value in resolved then Some(resolved[found.value]) else None
  }

  class LazyResolver {
    const builders: Builders
    var ledger: Ledger

    constructor (builders: Builders)
      ensures this.builders == builders && ledger == EMPTY
    {
      this.builders, ledger := builders, EMPTY;
    }

    /** Declares the own providers in order and looks for the last one of the type. */
    method Match(own: seq<Provider>, t: Type) returns (p: Option<Provider>)
      requires t != NoType
      modifies this
      ensures ledger == DeclareOwn(builders, own, old(ledger)) && p == LastOfType(own, t)
    {
      p := None;
      for i := 0 to |own|
        invariant ledger == DeclareOwn(builders, own[..i], old(ledger))
        invariant p == LastOfType(own[..i], t)
      {
        var q := own[i];
        assert own[..i + 1][..i] == own[..i];
        Declare(q);
        if q.ResolvedType() == t {
          p := Some(q);
        }
      }
      assert own[..|own|] == own;
    }

    /** The builder of a provider runs once. */
    method Declare(p: Provider)
      modifies this
      ensures ledger == DeclareOne(builders, p, old(ledger))
    {
      if p.View? || p in ledger.declared {
        return;
      }
      ledger := ledger.(declared := ledger.declared + {p});
      var requests := RequestsOf(builders, p);
      ghost var edges0, slices0 := ledger.edges, ledger.slices;
      for i := 0 to |requests|
        invariant ledger == old(ledger).(declared := old(ledger).declared + {p},
                                         edges := edges0 + EdgesOf(p, requests[..i]),
                                         slices := slices0 + SlicesOf(p, requests[..i]))
      {
        RequestsGrow(p, requests, i, edges0, slices0);
        AnswerOne(p, requests[i]);
      }
      assert requests[..|requests|] == requests;
    }

    method AnswerOne(p: Provider, q: Request)
      modifies this
      ensures ledger == old(ledger).(edges := old(ledger).edges + EdgesOf(p, [q]),
                slices := old(ledger).slices + SlicesOf(p, [q]))
    {
      assert [q][..0] == [];
      match q
      case One(t) => ledger := ledger.(edges := ledger.edges + [PendingEdge(ProviderOwner(p), t)]);
      case All(t) => ledger := ledger.(slices := ledger.slices + [SliceHead(ProviderOwner(p), t)]);
    }

    /** Inject from a Lazy callback; no value means a panic, which SafeInject turns into an error. */
    method MustLazy(a: Attempt) returns (v: Option<S.Value>)
      modifies this
      ensures ledger == After(builders, old(ledger), a)
      ensures v == ValueAfter(builders, old(ledger), a)
    {
      if !a.t.Pointer? {
        return None;
      }
      var found := Match(a.own, a.t);
      if found.None? {
        return None;
      }
      var p := found.value;
      if p in ledger.resolved {
        return Some(ledger.resolved[p]);
      }
      if !p.Concrete? || !p.scope.Singleton? {
        return None;
      }
      v := CallAndKeep(p, a);
    }

    /** The guard against dependencies compares the number of pending single injections only. */
    method CallAndKeep(p: Provider, a: Attempt) returns (v: Option<S.Value>)
      modifies this
      ensures ledger == CallEagerly(old(ledger), p, a)
      ensures v == if Keeps(p, a) then Some(S.Eager(p)) else None
    {
      var before := |ledger.edges|;
      v := Construct(p, a);
      if v.None? || |ledger.edges| != before {
        return None;
      }
      ledger := ledger.(resolved := ledger.resolved[p := v.value],
                        calls := ledger.calls[..|ledger.calls| - 1] + [EagerCall(p, true)]);
    }

    method Construct(p: Provider, a: Attempt) returns (v: Option<S.Value>)
      modifies this
      ensures ledger == CallEagerly(old(ledger), p, a).(resolved := old(ledger).resolved,
                calls := old(ledger).calls + [EagerCall(p, false)])
      ensures v == if Panics(p, a) then None else Some(S.Eager(p))
    {
      ledger := ledger.(calls := ledger.calls + [EagerCall(p, false)],
                        edges := ledger.edges + SinglesBy(p, a.outcome.targets));
      if p in a.owned {
        ledger := ledger.(slices := ledger.slices + SlicesBy(p, a.outcome.slices));
      }
      return if a.outcome.fails || (a.outcome.slices != [] && p !in a.owned) then None else Some(S.Eager(p));
    }
  }

  // ---- which provider answers ----

  predicate LastAt(own: seq<Provider>, t: Type, i: nat) {
    i < |own| && own[i].ResolvedType() == t && forall j :: i < j < |own| ==> own[j].ResolvedType() != t
  }

  predicate FirstAt(own: seq<Provider>, t: Type, i: nat) {
    i < |own| && own[i].ResolvedType() == t && forall j :: 0 <= j < i ==> own[j].ResolvedType() != t
  }

  lemma {:induction false} LastIsLatest(own: seq<Provider>, t: Type, i: nat)
    requires LastAt(own, t, i)
    ensures LastOfType(own, t) == Some(own[i])
  {
    if own[|own| - 1].ResolvedType() != t {
      LastIsLatest(own[..|own| - 1], t, i);
    }
  }

  /** Of several own providers of the type the last one is constructed and returned. Its value is
      kept, and returned, unless the constructor fails, injects a single provider, or injects a slice
      while no module owns the provider; in each case the call is logged. */
  lemma LastOwnProviderAnswers(builders: Builders, l: Ledger, a: Attempt, i: nat)
    requires a.t.Pointer? && LastAt(a.own, a.t, i)
    requires a.own[i].Concrete? && a.own[i].scope.Singleton? && a.own[i] !in l.resolved
    ensures var p := a.own[i];
            var kept := !a.outcome.fails && a.outcome.targets == [] && (a.outcome.slices == [] || p in a.owned);
            && After(builders, l, a).calls == l.calls + [EagerCall(p, kept)]
            && After(builders, l, a).resolved == (if kept then l.resolved[p := S.Eager(p)] else l.resolved)
            && ValueAfter(builders, l, a) == if kept then Some(S.Eager(p)) else None
  {
    LastIsLatest(a.own, a.t, i);
    DeclaringOnlyRecords(builders, a.own, l);
  }

  /** A value that was kept is returned again without a call; a provider that is not a singleton is
      never called, and an unknown type has no answer. */
  lemma NoCallWithoutNeed(builders: Builders, l: Ledger, a: Attempt, i: nat)
    requires a.t.Pointer?
    ensures LastAt(a.own, a.t, i) && a.own[i] in l.resolved ==>
              After(builders, l, a).calls == l.calls && ValueAfter(builders, l, a) == Some(l.resolved[a.own[i]])
    ensures LastAt(a.own, a.t, i) && a.own[i] !in l.resolved && !(a.own[i].Concrete? && a.own[i].scope.Singleton?) ==>
              After(builders, l, a).calls == l.calls && ValueAfter(builders, l, a) == None
    ensures (forall p :: p in a.own ==> p.ResolvedType() != a.t) ==>
              After(builders, l, a).calls == l.calls && ValueAfter(builders, l, a) == None
  {
    DeclaringOnlyRecords(builders, a.own, l);
    if LastAt(a.own, a.t, i) {
      LastIsLatest(a.own, a.t, i);
    }
  }

  /** The search of the resolution stage takes the first own provider of a type, a Lazy callback the
      last one that its module has registered by then. The two serve a type from one provider if and
      only if these are the same. */
  lemma LazyAgreesWithFindIff(tree: Decls, owner: ModuleId, own: seq<Provider>, t: Type, first: nat, last: nat)
    requires AssembledTree(tree) && owner in tree && own <= tree[owner].providers
    requires FirstAt(own, t, first) && LastAt(own, t, last)
    ensures Find(tree, owner, t) == Found(LastOfType(own, t).value) <==> own[first] == own[last]
  {
    LastIsLatest(own, t, last);
    OwnProvidersWin(tree, owner, t, first);
  }

  // ---- counting constructor calls ----

  function CallsTo(calls: seq<EagerCall>, p: Provider): nat {
    if calls == [] then 0 else CallsTo(calls[..|calls| - 1], p) + if calls[|calls| - 1].p == p then 1 else 0
  }

  /** The eager calls of a provider's constructor that came to nothing. */
  function FailedCalls(calls: seq<EagerCall>, p: Provider): nat {
    if calls == [] then 0
    else FailedCalls(calls[..|calls| - 1], p) + if calls[|calls| - 1] == EagerCall(p, false) then 1 else 0
  }

  lemma CallAppends(calls: seq<EagerCall>, call: EagerCall, p: Provider)
    ensures CallsTo(calls + [call], p) == CallsTo(calls, p) + if call.p == p then 1 else 0
    ensures FailedCalls(calls + [call], p) == FailedCalls(calls, p) + if call == EagerCall(p, false) then 1 else 0
  {
    assert (calls + [call])[..|calls|] == calls;
  }

  /** Each provider is kept at most once, and only singletons are called at all. */
  ghost predicate Balanced(l: Ledger, p: Provider) {
    && CallsTo(l.calls, p) == FailedCalls(l.calls, p) + (if p in l.resolved then 1 else 0)
    && (p in l.resolved ==> l.resolved[p] == S.Eager(p))
    && (CallsTo(l.calls, p) > 0 ==> p.Concrete? && p.scope.Singleton?)
  }

  /** Declaring providers constructs nothing. */
  lemma {:induction false} DeclaringOnlyRecords(builders: Builders, own: seq<Provider>, l: Ledger)
    ensures var d := DeclareOwn(builders, own, l); d.resolved == l.resolved && d.calls == l.calls
  {
    if own != [] {
      DeclaringOnlyRecords(builders, own[..|own| - 1], l);
    }
  }

  lemma CallKeepsBalance(l: Ledger, q: Provider, a: Attempt, p: Provider)
    requires Balanced(l, p) && q !in l.resolved && q.Concrete? && q.scope.Singleton?
    ensures Balanced(CallEagerly(l, q, a), p)
  {
    CallAppends(l.calls, EagerCall(q, Keeps(q, a)), p);
  }

  lemma AttemptKeepsBalance(builders: Builders, l: Ledger, a: Attempt, p: Provider)
    requires Balanced(l, p)
    ensures Balanced(After(builders, l, a), p)
  {
    var d, found := DeclareOwn(builders, a.own, l), LastOfType(a.own, a.t);
    DeclaringOnlyRecords(builders, a.own, l);
    if found.Some? && Tries(a, found.value) && found.value !in d.resolved {
      CallKeepsBalance(d, found.value, a, p);
    }
  }

  function AfterAll(builders: Builders, attempts: seq<Attempt>): Ledger {
    if attempts == [] then EMPTY
    else After(builders, AfterAll(builders, attempts[..|attempts| - 1]), attempts[|attempts| - 1])
  }

  lemma {:induction false} AttemptsBalance(builders: Builders, attempts: seq<Attempt>, p: Provider)
    ensures Balanced(AfterAll(builders, attempts), p)
  {
    if attempts != [] {
      AttemptsBalance(builders, attempts[..|attempts| - 1], p);
      AttemptKeepsBalance(builders, AfterAll(builders, attempts[..|attempts| - 1]), attempts[|attempts| - 1], p);
    }
  }

  /** The first attempt for a provider. */
  function FirstTry(attempts: seq<Attempt>, p: Provider): (r: Option<Attempt>)
    ensures r.Some? ==> r.value in attempts && Tries(r.value, p)
    ensures r.None? <==> forall a :: a in attempts ==> !Tries(a, p)
  {
    if attempts == [] then None
    else
      assert attempts == attempts[..|attempts| - 1] + [attempts[|attempts| - 1]];
      var r := FirstTry(attempts[..|attempts| - 1], p);
      if r.Some? then r
      else if Tries(attempts[|attempts| - 1], p) then Some(attempts[|attempts| - 1])
      else None
  }

  /** The first try decides: if it keeps its value, no later one calls the constructor again. */
  ghost predicate FirstTryDecides(l: Ledger, r: Option<Attempt>, p: Provider) {
    match r
    case None => CallsTo(l.calls, p) == 0 && p !in l.resolved
    case Some(a) => if Keeps(p, a) then p in l.resolved && FailedCalls(l.calls, p) == 0 else FailedCalls(l.calls, p) > 0
  }

  lemma AttemptKeepsDecision(builders: Builders, l: Ledger, a: Attempt, r: Option<Attempt>, p: Provider)
    requires Balanced(l, p) && FirstTryDecides(l, r, p)
    ensures FirstTryDecides(After(builders, l, a), if r.None? && Tries(a, p) then Some(a) else r, p)
  {
    var d, found := DeclareOwn(builders, a.own, l), LastOfType(a.own, a.t);
    DeclaringOnlyRecords(builders, a.own, l);
    if found.Some? && Tries(a, found.value) && found.value !in d.resolved {
      CallAppends(l.calls, EagerCall(found.value, Keeps(found.value, a)), p);
    }
  }

  lemma {:induction false} FirstTryDecidesAll(builders: Builders, attempts: seq<Attempt>, p: Provider)
    ensures FirstTryDecides(AfterAll(builders, attempts), FirstTry(attempts, p), p)
  {
    if attempts != [] {
      var front, last := attempts[..|attempts| - 1], attempts[|attempts| - 1];
      FirstTryDecidesAll(builders, front, p);
      AttemptsBalance(builders, front, p);
      AttemptKeepsDecision(builders, AfterAll(builders, front), last, FirstTry(front, p), p);
    }
  }

  /** All calls of a provider's constructor in a bootstrap: the eager ones and those of the stage. */
  ghost function AllCalls(c: S.Config, l: Ledger, run: seq<S.State>, p: Provider): nat
    requires run != []
  {
    CallsTo(l.calls, p) + |R.Calls(c, run[|run| - 1].sh.log, p)|
  }

  /** Over a whole bootstrap that returns nil, after any eager attempts, a provider that is neither
      transient nor overridden is constructed once, and once more for each eager attempt that
      called its constructor in vain. */
  lemma CallsOfBootstrap(c: S.Config, order: seq<Provider>, run: seq<S.State>, builders: Builders,
                         attempts: seq<Attempt>,
                         p: Provider)
    requires S.WellFormed(c, order) && S.Run(c, run) && R.ReturnsNil(run[|run| - 1])
    requires p in c.nodes && !S.IsTransient(p) && p !in c.overrides && c.eager == AfterAll(builders, attempts).resolved
    ensures var l := AfterAll(builders, attempts); AllCalls(c, l, run, p) == 1 + FailedCalls(l.calls, p)
  {
    AttemptsBalance(builders, attempts, p);
    R.CallsAreExact(c, order, run, p);
  }

  /** So it is constructed exactly once if and only if nobody tries it eagerly, or the first that
      does finds a constructor that neither fails nor injects a single provider. */
  lemma ConstructedOnceIff(c: S.Config, order: seq<Provider>, run: seq<S.State>, builders: Builders,
                           attempts: seq<Attempt>,
                           p: Provider)
    requires S.WellFormed(c, order) && S.Run(c, run) && R.ReturnsNil(run[|run| - 1])
    requires p in c.nodes && !S.IsTransient(p) && p !in c.overrides && c.eager == AfterAll(builders, attempts).resolved
    ensures AllCalls(c, AfterAll(builders, attempts), run, p) == 1 <==>
              FirstTry(attempts, p).None? || Keeps(p, FirstTry(attempts, p).value)
  {
    CallsOfBootstrap(c, order, run, builders, attempts, p);
    FirstTryDecidesAll(builders, attempts, p);
    AttemptsBalance(builders, attempts, p);
  }

  /** Transient providers are never constructed eagerly: each injection makes one call. */
  lemma TransientCallsOfBootstrap(c: S.Config, order: seq<Provider>, run: seq<S.State>, builders: Builders,
                                  attempts: seq<Attempt>, p: Provider)
    requires S.WellFormed(c, order) && S.Run(c, run) && R.ReturnsNil(run[|run| - 1])
    requires p in c.nodes && S.IsTransient(p) && p !in c.overrides
    ensures AllCalls(c, AfterAll(builders, attempts), run, p) == |R.InjectionsOf(c, p)|
  {
    AttemptsBalance(builders, attempts, p);
    R.CallsAreExact(c, order, run, p);
  }

  /** A Lazy callback tries its only provider, the constructor fails, SafeInject hides the panic:
      every bootstrap that goes on to return nil has called the constructor twice. */
  lemma FailedAttemptIsRepeated(c: S.Config, order: seq<Provider>, run: seq<S.State>, p: Provider)
    requires S.WellFormed(c, order) && S.Run(c, run) && R.ReturnsNil(run[|run| - 1])
    requires p in c.nodes && p.Concrete? && p.scope.Singleton? && p.typ.Pointer? && p !in c.overrides
               && c.eager == map[]
    ensures var l := AfterAll(map[], [Attempt([p], p.typ, FAILS, {})]);
            l.resolved == c.eager && AllCalls(c, l, run, p) == 2
  {
    var a := Attempt([p], p.typ, FAILS, {});
    assert [a][..0] == [] && AfterAll(map[], [a]) == After(map[], EMPTY, a);
    DeclaringOnlyRecords(map[], [p], EMPTY);
    assert LastOfType([p], p.typ) == Some(p);
    CallAppends([], EagerCall(p, false), p);
    assert [] + [EagerCall(p, false)] == [EagerCall(p, false)];
    CallsOfBootstrap(c, order, run, map[], [a], p);
  }

  // ---- what an eager constructor finds ----

  /** Until its constructor is called, what a provider has recorded is what its builder requests. */
  ghost predicate RecordsOwn(builders: Builders, l: Ledger, p: Provider) {
    CallsTo(l.calls, p) == 0 ==> forall t ::
      && (PendingEdge(ProviderOwner(p), t) in l.edges <==> p in l.declared && One(t) in RequestsOf(builders, p))
      && (SliceHead(ProviderOwner(p), t) in l.slices <==> p in l.declared && All(t) in RequestsOf(builders, p))
  }

  lemma DeclareOneRecordsOwn(builders: Builders, q: Provider, l: Ledger, p: Provider)
    requires RecordsOwn(builders, l, p)
    ensures RecordsOwn(builders, DeclareOne(builders, q, l), p)
  {
    var l' := DeclareOne(builders, q, l);
    forall t
      ensures CallsTo(l.calls, p) == 0 ==>
                (PendingEdge(ProviderOwner(p), t) in l'.edges <==>
                    p in l'.declared && One(t) in RequestsOf(builders, p))
                && (SliceHead(ProviderOwner(p), t) in l'.slices <==>
                    p in l'.declared && All(t) in RequestsOf(builders, p))
    {
      InEdgesOf(q, RequestsOf(builders, q), p, t);
      InSlicesOf(q, RequestsOf(builders, q), p, t);
    }
  }

  lemma {:induction false} DeclareOwnRecordsOwn(builders: Builders, own: seq<Provider>, l: Ledger, p: Provider)
    requires RecordsOwn(builders, l, p)
    ensures RecordsOwn(builders, DeclareOwn(builders, own, l), p)
    ensures p.Concrete? && p in own ==> p in DeclareOwn(builders, own, l).declared
  {
    if own != [] {
      var front, last := own[..|own| - 1], own[|own| - 1];
      DeclareOwnRecordsOwn(builders, front, l, p);
      DeclareOneRecordsOwn(builders, last, DeclareOwn(builders, front, l), p);
      assert own == front + [last];
    }
  }

  lemma CallRecordsOwn(builders: Builders, l: Ledger, q: Provider, a: Attempt, p: Provider)
    requires RecordsOwn(builders, l, p)
    ensures RecordsOwn(builders, CallEagerly(l, q, a), p)
  {
    CallAppends(l.calls, EagerCall(q, Keeps(q, a)), p);
  }

  lemma {:induction false} AttemptsRecordOwn(builders: Builders, attempts: seq<Attempt>, p: Provider)
    ensures RecordsOwn(builders, AfterAll(builders, attempts), p)
  {
    if attempts != [] {
      var front, a := attempts[..|attempts| - 1], attempts[|attempts| - 1];
      var l := AfterAll(builders, front);
      AttemptsRecordOwn(builders, front, p);
      DeclareOwnRecordsOwn(builders, a.own, l, p);
      var d, found := DeclareOwn(builders, a.own, l), LastOfType(a.own, a.t);
      if a.t.Pointer? && found.Some? && Tries(a, found.value) && found.value !in d.resolved {
        CallRecordsOwn(builders, d, found.value, a, p);
      }
    }
  }

  /** The guard against dependencies looks at the constructor call only: when the constructor of p
      is first called eagerly, the injections p has pending are those its builder requests, and
      whatever they are, a constructor that returns is kept. */
  lemma BuilderInjectionsPass(builders: Builders, attempts: seq<Attempt>, a: Attempt, p: Provider)
    requires Tries(a, p) && FirstTry(attempts, p).None?
    ensures var d := DeclareOwn(builders, a.own, AfterAll(builders, attempts));
            && After(builders, AfterAll(builders, attempts), a) == CallEagerly(d, p, a)
            && (forall t :: PendingEdge(ProviderOwner(p), t) in d.edges <==> One(t) in RequestsOf(builders, p))
            && (forall t :: SliceHead(ProviderOwner(p), t) in d.slices <==> All(t) in RequestsOf(builders, p))
    ensures a.outcome == RETURNS ==> ValueAfter(builders, AfterAll(builders, attempts), a) == Some(S.Eager(p))
  {
    var l := AfterAll(builders, attempts);
    AttemptsRecordOwn(builders, attempts, p);
    FirstTryDecidesAll(builders, attempts, p);
    DeclareOwnRecordsOwn(builders, a.own, l, p);
    DeclaringOnlyRecords(builders, a.own, l);
  }

  // The cells that p injects, before the stage has taken a step.

  ghost predicate PlaceholdersFilled(c: S.Config, p: Provider) {
    forall e :: 0 <= e < |c.targets| && e < |c.edgeOwner| && c.edgeOwner[e] == ProviderOwner(p) ==>
      S.History(S.Init(c).sh, S.Placeholder(e)) != []
  }

  ghost predicate SlotsFilled(c: S.Config, p: Provider) {
    forall i :: 0 <= i < |c.slots| && c.slots[i].owner == ProviderOwner(p) ==> S.History(S.Init(c).sh, S.Slot(i)) != []
  }

  /** The bootstrap holds for p what the ledger held when p was called. */
  ghost predicate HoldsPending(b: Bootstrap, d: Ledger, p: Provider) {
    && (forall t :: PendingEdge(ProviderOwner(p), t) in b.edges <==> PendingEdge(ProviderOwner(p), t) in d.edges)
    && (forall t :: SliceHead(ProviderOwner(p), t) in Heads(b.allEdges) <==> SliceHead(ProviderOwner(p), t) in d.slices)
  }

  lemma RequestsArePending(b: Bootstrap, order: seq<ModuleId>, builders: Builders, attempts: seq<Attempt>, a: Attempt,
                           p: Provider)
    requires Tries(a, p) && FirstTry(attempts, p).None?
    requires b.tree.Keys == Elems(order) && RecordsRequests(b, order, builders) && RegisteredIn(b.tree, p)
    ensures HoldsPending(b, DeclareOwn(builders, a.own, AfterAll(builders, attempts)), p)
    ensures forall t :: PendingEdge(ProviderOwner(p), t) in b.edges <==> One(t) in RequestsOf(builders, p)
  {
    var all := Registrations(b.tree, order);
    RegistrationsAre(b.tree, order);
    InDeclarations(all, {}, p);
    BuilderInjectionsPass(builders, attempts, a, p);
    forall t
      ensures PendingEdge(ProviderOwner(p), t) in b.edges <==> One(t) in RequestsOf(builders, p)
      ensures SliceHead(ProviderOwner(p), t) in Heads(b.allEdges) <==> All(t) in RequestsOf(builders, p)
    {
      InEdgesOfAll(builders, Declarations(all, {}), p, t);
      InSlicesOfAll(builders, Declarations(all, {}), p, t);
    }
  }

  /** Eager constructors run before the stage fills any cell. What p injects in the whole bootstrap
      is pending when its constructor is first called eagerly, and all its placeholders are filled
      then if and only if its builder injects no single provider, all slots of its slices if and
      only if these have no members. A transient behind a placeholder makes no difference. */
  lemma EagerCallIsSuppliedIff(b: Bootstrap, order: seq<ModuleId>, c: S.Config, builders: Builders,
                               attempts: seq<Attempt>,
                               a: Attempt, p: Provider)
    requires Tries(a, p) && FirstTry(attempts, p).None?
    requires b.Recorded() && b.tree.Keys == Elems(order) && RecordsRequests(b, order, builders)
               && RegisteredIn(b.tree, p)
    requires StagesInjections(b, c)
    ensures HoldsPending(b, DeclareOwn(builders, a.own, AfterAll(builders, attempts)), p)
    ensures PlaceholdersFilled(c, p) <==> forall t :: One(t) !in RequestsOf(builders, p)
    ensures SlotsFilled(c, p) <==> forall e :: e in b.allEdges && e.owner == ProviderOwner(p) ==> e.matches == []
    ensures RequestsOf(builders, p) == [] ==> PlaceholdersFilled(c, p) && SlotsFilled(c, p)
  {
    BuilderInjectionsPass(builders, attempts, a, p);
    RequestsArePending(b, order, builders, attempts, a, p);
    PlaceholdersAreSingles(b, c, p);
    SlotsAreMembers(b, c, p);
    if RequestsOf(builders, p) == [] {
      forall e | e in b.allEdges ensures e.owner != ProviderOwner(p) {
        var k :| 0 <= k < |b.allEdges| && b.allEdges[k] == e;
        assert Heads(b.allEdges)[k] in Heads(b.allEdges);
      }
    }
  }

  lemma PlaceholdersAreSingles(b: Bootstrap, c: S.Config, p: Provider)
    requires b.Recorded() && StagesInjections(b, c)
    ensures PlaceholdersFilled(c, p) <==> forall t :: PendingEdge(ProviderOwner(p), t) !in b.edges
  {
    if t :| PendingEdge(ProviderOwner(p), t) in b.edges {
      var i :| 0 <= i < |b.edges| && b.edges[i] == PendingEdge(ProviderOwner(p), t);
      assert c.edgeOwner[i] == ProviderOwner(p) && S.History(S.Init(c).sh, S.Placeholder(i)) == [];
    } else {
      forall e | 0 <= e < |c.targets| ensures c.edgeOwner[e] != ProviderOwner(p) {
        assert PendingEdge(b.edges[e].owner, b.edges[e].target) == b.edges[e];
      }
    }
  }

  lemma SlotsAreMembers(b: Bootstrap, c: S.Config, p: Provider)
    requires b.Recorded() && StagesInjections(b, c)
    ensures SlotsFilled(c, p) <==> forall e :: e in b.allEdges && e.owner == ProviderOwner(p) ==> e.matches == []
  {
    if e :| e in b.allEdges && e.owner == ProviderOwner(p) && e.matches != [] {
      SlotComesFromEdge(b.allEdges, S.SlotRef(e.owner, e.iface, e.matches[0]));
      var i :| 0 <= i < |c.slots| && c.slots[i] == S.SlotRef(e.owner, e.iface, e.matches[0]);
      assert S.History(S.Init(c).sh, S.Slot(i)) == [];
    } else {
      forall i | 0 <= i < |c.slots| ensures c.slots[i].owner != ProviderOwner(p) {
        SlotComesFromEdge(b.allEdges, c.slots[i]);
      }
    }
  }
}
