// internal/graphql/reservation.go: the token registry of graphql-sse's Single connection mode,
// and its callers in internal/graphql/sse_single.go as a step system in which every lock region
// of the registry and every close is a step of its own.
module Reservations {
  import opened Graphs
  import opened Channels

  type Token = string

  /** The write function of one SSE connection, known by the number of the connection. */
  type Writer = nat

  /** What the registry knows of a token: its connection, once attached, and its streams. */
  datatype Entry<C> = Entry(write: Option<Writer>, ops: map<OpId, C>)

  type Table<C> = map<Token, Entry<C>>

  predicate Holds<C>(v: Table<C>, token: Token, id: OpId) {
    token in v && id in v[token].ops
  }

  ghost function Registered<C>(v: Table<C>): set<C> {
    set t, id | t in v && id in v[t].ops :: v[t].ops[id]
  }

  /** No channel is registered under two names. */
  ghost predicate Distinct<C>(v: Table<C>) {
    forall t, a, u, b :: Holds(v, t, a) && Holds(v, u, b) && v[t].ops[a] == v[u].ops[b] ==> t == u && a == b
  }

  /** Whatever v registers, w registers under the same name. */
  ghost predicate Within<C>(v: Table<C>, w: Table<C>) {
    forall t, id :: Holds(v, t, id) ==> Holds(w, t, id) && v[t].ops[id] == w[t].ops[id]
  }

  lemma WithinStaysDistinct<C>(v: Table<C>, w: Table<C>)
    requires Within(v, w) && Distinct(w)
    ensures Distinct(v) && forall c :: c in Registered(v) ==> c in Registered(w)
  {
  }

  lemma StartedStaysDistinct<C>(v: Table<C>, token: Token, id: OpId, done: C)
    requires Distinct(v) && done !in Registered(v)
    ensures var w := Started(v, token, id, done);
            Distinct(w) && forall c :: c in Registered(w) ==> c == done || c in Registered(v)
  {
    var w := Started(v, token, id, done);
    forall t, a | Holds(w, t, a)
      ensures (t == token && a == id && w[t].ops[a] == done) || (Holds(v, t, a) && w[t].ops[a] == v[t].ops[a]) {
    }
  }

  lemma StoppingSeparates<C>(v: Table<C>, token: Token, id: OpId)
    requires Distinct(v) && Holds(v, token, id)
    ensures v[token].ops[id] in Registered(v) && v[token].ops[id] !in Registered(Stopped(v, token, id))
  {
  }

  lemma ForgettingSeparates<C>(v: Table<C>, token: Token)
    requires Distinct(v) && token in v
    ensures forall c :: c in Registered(v - {token}) ==> c !in v[token].ops.Values
    ensures Distinct(v - {token})
  {
    WithinStaysDistinct(v - {token}, v);
    forall t, id, b | Holds(v - {token}, t, id) && b in v[token].ops ensures v[t].ops[id] != v[token].ops[b] {
      assert Holds(v, t, id) && Holds(v, token, b);
    }
  }

  function OpsOf<C>(v: Table<C>, token: Token): map<OpId, C> {
    if token in v then v[token].ops else map[]
  }

  function Attached<C>(v: Table<C>, token: Token, write: Writer): Table<C> {
    if token in v then v[token := v[token].(write := Some(write))] else v
  }

  function Started<C>(v: Table<C>, token: Token, id: OpId, done: C): Table<C> {
    if token in v then v[token := v[token].(ops := WithOp(v[token].ops, id, done))] else v
  }

  function Stopped<C>(v: Table<C>, token: Token, id: OpId): Table<C> {
    if token in v then v[token := v[token].(ops := WithoutOp(v[token].ops, id))] else v
  }

  // ---- the registry ----

  class Reservation {
    var write: Option<Writer>
    var ops: map<OpId, Chan>

    constructor ()
      ensures write == None && ops == map[]
    {
      write, ops := None, map[];
    }
  }

  class ReservationRegistry {
    var byTok: map<Token, Reservation>

    ghost function View(): Table<Chan>
      reads this, byTok.Values
    {
      map t | t in byTok :: Entry(byTok[t].write, byTok[t].ops)
    }

    ghost predicate Valid()
      reads this, byTok.Values, Registered(View())
    {
      && (forall t, u :: t in byTok && u in byTok && byTok[t] == byTok[u] ==> t == u)
      && Distinct(View())
      && forall c :: c in Registered(View()) ==> !c.closed
    }

    lemma EntryIsSound(token: Token)
      requires Valid() && token in byTok
      ensures OpenAndDistinct(byTok[token].ops)
      ensures forall c :: c in byTok[token].ops.Values ==> c in Registered(View())
    {
      var ops := byTok[token].ops;
      forall a | a in ops ensures ops[a] in Registered(View()) {
        assert Holds(View(), token, a);
      }
      forall a, b | a in ops && b in ops && a != b ensures ops[a] != ops[b] {
        assert Holds(View(), token, a) && Holds(View(), token, b);
      }
    }

    constructor ()
      ensures Valid() && View() == map[]
    {
      byTok := map[];
    }

    /** The token is drawn at random from a space where it does not collide. */
    method Reserve(token: Token)
      requires Valid() && token !in byTok
      modifies this
      ensures Valid() && View() == old(View())[token := Entry(None, map[])]
    {
      var res := new Reservation();
      byTok := byTok[token := res];
      WithinStaysDistinct(View(), old(View()));
    }

    method Attach(token: Token, write: Writer) returns (ok: bool)
      requires Valid()
      modifies byTok.Values
      ensures Valid() && byTok == old(byTok)
      ensures ok <==> token in byTok
      ensures View() == Attached(old(View()), token, write)
    {
      ok := token in byTok;
      if ok {
        byTok[token].write := Some(write);
      }
      WithinStaysDistinct(View(), old(View()));
    }

    method Route(token: Token, operationId: OpId) returns (write: Option<Writer>)
      requires Valid()
      ensures write == if token in View() then View()[token].write else None
    {
      return if token in byTok then byTok[token].write else None;
    }

    method StartOperation(token: Token, operationId: OpId, done: Chan) returns (ok: bool)
      requires Valid() && !done.closed && done !in Registered(View())
      modifies byTok.Values
      ensures Valid() && byTok == old(byTok)
      ensures ok <==> token in byTok
      ensures View() == Started(old(View()), token, operationId, done)
    {
      ok := token in byTok;
      if ok {
        byTok[token].ops := byTok[token].ops[operationId := done];
      }
      assert View() == Started(old(View()), token, operationId, done);
      StartedStaysDistinct(old(View()), token, operationId, done);
    }

    /** The lock region of StopOperation: the stream goes, and is handed to the caller. */
    method TakeOut(token: Token, operationId: OpId) returns (done: Option<Chan>)
      requires Valid()
      modifies byTok.Values
      ensures Valid() && byTok == old(byTok)
      ensures View() == Stopped(old(View()), token, operationId)
      ensures done == Taken(OpsOf(old(View()), token), operationId)
      ensures done.Some? ==> !done.value.closed && done.value !in Registered(View())
    {
      if token !in byTok {
        return None;
      }
      var res := byTok[token];
      done := Taken(res.ops, operationId);
      res.ops := res.ops - {operationId};
      assert View() == Stopped(old(View()), token, operationId);
      WithinStaysDistinct(View(), old(View()));
      if done.Some? {
        StoppingSeparates(old(View()), token, operationId);
      }
    }

    /** Cancels one stream; a second call finds nothing. */
    method StopOperation(token: Token, operationId: OpId) returns (ok: bool)
      requires Valid()
      modifies byTok.Values, if Holds(View(), token, operationId) then {View()[token].ops[operationId]} else {}
      ensures Valid() && byTok == old(byTok)
      ensures ok <==> Holds(old(View()), token, operationId)
      ensures ok ==> old(View())[token].ops[operationId].closed
      ensures View() == Stopped(old(View()), token, operationId)
    {
      var done := TakeOut(token, operationId);
      ok := done.Some?;
      if ok {
        done.value.Close();
      }
    }

    /** The lock region of Release: the token goes, and its streams are handed to the caller. */
    method Forget(token: Token) returns (toClose: seq<Chan>)
      requires Valid()
      modifies this
      ensures Valid() && View() == old(View()) - {token}
      ensures NoDup(toClose) && forall c :: c in toClose ==> !c.closed && c !in Registered(View())
      ensures forall c :: c in toClose <==> c in OpsOf(old(View()), token).Values
    {
      toClose := [];
      if token in byTok {
        EntryIsSound(token);
        ForgettingSeparates(View(), token);
        toClose := DrainTable(byTok[token].ops);
      } else {
        WithinStaysDistinct(View() - {token}, View());
      }
      byTok := byTok - {token};
      assert View() == old(View()) - {token};
    }

    /** Forgets a token and cancels every stream still registered under it. */
    method Release(token: Token)
      requires Valid()
      modifies this, OpsOf(View(), token).Values
      ensures Valid() && View() == old(View()) - {token}
      ensures forall id :: Holds(old(View()), token, id) ==> old(View())[token].ops[id].closed
    {
      ghost var before := View();
      var toClose := Forget(token);
      assert forall id :: Holds(before, token, id) ==> before[token].ops[id] in toClose;
      CloseAll(toClose);
    }
  }

  // ---- the registry and its callers as a step system ----

  /** A request or goroutine: a GET whose connection is attached, a release that closes what is
      left of the streams it found, a POST that has been routed, a stream goroutine, a stop that
      is about to take the lock, one about to close what it took, or nothing more to do. */
  datatype Agent =
    | Connected(token: Token)
    | ClosingAll(token: Token, rest: map<OpId, ChanId>)
    | Starting(token: Token, id: OpId)
    | Running(c: ChanId)
    | Stopping(token: Token, id: OpId)
    | Holding(c: ChanId)
    | AgentDone

  /** Channel c was made for the stream made[c]; lost are the channels that were overwritten in
      the registry or refused by it, and that nobody will close. */
  datatype State = State(
    byTok: Table<ChanId>,
    ever: set<Token>,
    made: seq<(Token, OpId)>,
    agents: seq<Agent>,
    closed: multiset<ChanId>,
    lost: multiset<ChanId>)

  const INITIAL := State(map[], {}, [], [], multiset{}, multiset{})

  /** A request arrives, an emit fails to write, or agent k goes on; pick is the key that the
      range loop of a release meets next. */
  datatype Action =
    | Put(token: Token)
    | Get(token: Token, write: Writer)
    | Post(token: Token, id: OpId)
    | Delete(token: Token, id: OpId)
    | EmitFails(c: ChanId)
    | GoOn(k: nat, pick: OpId)

  predicate Enabled(s: State, a: Action) {
    match a
    case Put(token) => token !in s.ever
    case Get(token, _) => token in s.byTok
    case Post(token, _) => token in s.byTok && s.byTok[token].write.Some?
    case Delete(_, _) => true
    case EmitFails(c) => c < |s.made|
    case GoOn(k, pick) => k < |s.agents| && CanGoOn(s, s.agents[k], pick)
  }

  predicate CanGoOn(s: State, a: Agent, pick: OpId) {
    match a
    case ClosingAll(_, rest) => rest == map[] || pick in rest
    case Running(c) => c < |s.made|
    case AgentDone => false
    case _ => true
  }

  function Next(s: State, a: Action): State
    requires Enabled(s, a)
  {
    match a
    case Put(token) => s.(byTok := s.byTok[token := Entry(None, map[])], ever := s.ever + {token})
    case Get(token, w) => s.(byTok := Attached(s.byTok, token, w), agents := s.agents + [Connected(token)])
    case Post(token, id) => s.(agents := s.agents + [Starting(token, id)])
    case Delete(token, id) => s.(agents := s.agents + [Stopping(token, id)])
    case EmitFails(c) => s.(agents := s.agents + [Stopping(s.made[c].0, s.made[c].1)])
    case GoOn(k, pick) => Proceed(s, s.agents[k], pick).(agents := s.agents[k := Becomes(s, s.agents[k], pick)])
  }

  /** What an agent turns into. */
  function Becomes(s: State, a: Agent, pick: OpId): Agent
    requires CanGoOn(s, a, pick)
  {
    match a
    case Connected(token) => ClosingAll(token, OpsOf(s.byTok, token))
    case ClosingAll(token, rest) => if rest == map[] then AgentDone else ClosingAll(token, rest - {pick})
    case Starting(_, _) => Running(|s.made|)
    case Running(c) => Stopping(s.made[c].0, s.made[c].1)
    case Stopping(token, id) => if Holds(s.byTok, token, id) then Holding(s.byTok[token].ops[id]) else AgentDone
    case Holding(_) => AgentDone
  }

  /** What its step does to the registry and to the channels. */
  function Proceed(s: State, a: Agent, pick: OpId): State
    requires CanGoOn(s, a, pick)
  {
    match a
    case Connected(token) => s.(byTok := s.byTok - {token})
    case ClosingAll(_, rest) => if rest == map[] then s else s.(closed := s.closed + multiset{rest[pick]})
    case Starting(token, id) => Start(s, token, id)
    case Running(_) => s
    case Stopping(token, id) => s.(byTok := Stopped(s.byTok, token, id))
    case Holding(c) => s.(closed := s.closed + multiset{c})
  }

  /** The handler makes a channel and registers it, and does not look at the answer. */
  function Start(s: State, token: Token, id: OpId): State {
    var dropped :=
      if token !in s.byTok then multiset{|s.made|}
      else if id in s.byTok[token].ops then multiset{s.byTok[token].ops[id]}
      else multiset{};
    s.(byTok := Started(s.byTok, token, id, |s.made|), made := s.made + [(token, id)], lost := s.lost + dropped)
  }

  ghost predicate Step(s: State, s': State) {
    exists a :: Enabled(s, a) && s' == Next(s, a)
  }

  ghost predicate StepAt(run: seq<State>, j: nat)
    requires 0 < j < |run|
  {
    Step(run[j - 1], run[j])
  }

  ghost predicate Run(run: seq<State>) {
    && run != [] && run[0] == INITIAL
    && forall j :: 0 < j < |run| ==> StepAt(run, j)
  }

  // ---- where a channel is ----

  function InTable(v: Table<ChanId>, made: seq<(Token, OpId)>, c: ChanId): nat {
    if c < |made| then Registration(OpsOf(v, made[c].0), made[c].1, c) else 0
  }

  /** How often an agent is about to close c. */
  function Closes(made: seq<(Token, OpId)>, c: ChanId): Agent -> nat {
    (a: Agent) =>
      match a
      case Holding(d) => if d == c then 1 else 0
      case ClosingAll(token, rest) => if c < |made| && made[c].0 == token then Registration(rest, made[c].1, c) else 0
      case _ => 0
  }

  function Held(s: State, c: ChanId): nat {
    Total(Closes(s.made, c), s.agents)
  }

  function Tokens(s: State, c: ChanId): nat {
    InTable(s.byTok, s.made, c) + Held(s, c) + s.closed[c] + s.lost[c]
  }

  /** Every channel of the table was made for the name it is registered under. */
  predicate Named(ops: map<OpId, ChanId>, token: Token, made: seq<(Token, OpId)>) {
    forall id :: id in ops ==> ops[id] < |made| && made[ops[id]] == (token, id)
  }

  predicate Proper(made: seq<(Token, OpId)>, a: Agent) {
    match a
    case ClosingAll(token, rest) => Named(rest, token, made)
    case Running(c) => c < |made|
    case _ => true
  }

  ghost predicate Placed(s: State) {
    && (forall t :: t in s.byTok ==> t in s.ever && Named(s.byTok[t].ops, t, s.made))
    && (forall a :: a in s.agents ==> Proper(s.made, a))
  }

  ghost predicate Conserved(s: State) {
    forall c: nat :: Tokens(s, c) == if c < |s.made| then 1 else 0
  }

  lemma PutKeepsTokens(s: State, token: Token, c: ChanId)
    requires Placed(s) && Enabled(s, Put(token))
    ensures Tokens(Next(s, Put(token)), c) == Tokens(s, c)
  {
  }

  lemma ArrivalKeepsTokens(s: State, a: Action, c: ChanId)
    requires Placed(s) && Enabled(s, a) && !a.GoOn? && !a.Put?
    ensures Tokens(Next(s, a), c) == Tokens(s, c)
  {
    var s' := Next(s, a);
    TotalAppends(Closes(s.made, c), s.agents, s'.agents[|s.agents|]);
    assert s'.agents == s.agents + [s'.agents[|s.agents|]];
  }

  lemma ReleaseKeepsTokens(s: State, k: nat, pick: OpId, c: ChanId)
    requires Placed(s) && Enabled(s, GoOn(k, pick)) && s.agents[k].Connected?
    ensures Tokens(Next(s, GoOn(k, pick)), c) == Tokens(s, c)
  {
    TotalUpdates(Closes(s.made, c), s.agents, k, Becomes(s, s.agents[k], pick));
  }

  lemma StopKeepsTokens(s: State, k: nat, pick: OpId, c: ChanId)
    requires Placed(s) && Enabled(s, GoOn(k, pick)) && s.agents[k].Stopping?
    ensures Tokens(Next(s, GoOn(k, pick)), c) == Tokens(s, c)
  {
    TotalUpdates(Closes(s.made, c), s.agents, k, Becomes(s, s.agents[k], pick));
  }

  lemma CloseKeepsTokens(s: State, k: nat, pick: OpId, c: ChanId)
    requires Placed(s) && Enabled(s, GoOn(k, pick))
    requires s.agents[k].ClosingAll? || s.agents[k].Holding? || s.agents[k].Running?
    ensures Tokens(Next(s, GoOn(k, pick)), c) == Tokens(s, c)
  {
    assert Proper(s.made, s.agents[k]);
    TotalUpdates(Closes(s.made, c), s.agents, k, Becomes(s, s.agents[k], pick));
  }

  /** Agents know nothing of a channel that is yet to be made. */
  lemma {:induction false} HeldIgnoresNew(made: seq<(Token, OpId)>, name: (Token, OpId), agents: seq<Agent>, c: ChanId)
    requires forall a :: a in agents ==> Proper(made, a)
    ensures Total(Closes(made + [name], c), agents) == Total(Closes(made, c), agents)
  {
    if agents != [] {
      var last := |agents| - 1;
      HeldIgnoresNew(made, name, agents[..last], c);
      assert Proper(made, agents[last]);
    }
  }

  lemma StartKeepsTokens(s: State, k: nat, pick: OpId, c: ChanId)
    requires Placed(s) && Enabled(s, GoOn(k, pick)) && s.agents[k].Starting?
    ensures Tokens(Next(s, GoOn(k, pick)), c) == Tokens(s, c) + if c == |s.made| then 1 else 0
  {
    var name := (s.agents[k].token, s.agents[k].id);
    HeldIgnoresNew(s.made, name, s.agents, c);
    TotalUpdates(Closes(s.made + [name], c), s.agents, k, Running(|s.made|));
    StartMovesTable(s, name.0, name.1, c);
  }

  lemma StartMovesTable(s: State, token: Token, id: OpId, c: ChanId)
    requires Placed(s)
    ensures var s' := Start(s, token, id);
            InTable(s'.byTok, s'.made, c) + s'.lost[c]
            == InTable(s.byTok, s.made, c) + s.lost[c] + if c == |s.made| then 1 else 0
  {
    assert token in s.byTok ==> Named(s.byTok[token].ops, token, s.made);
  }

  lemma NextKeepsTokens(s: State, a: Action, c: ChanId)
    requires Placed(s) && Enabled(s, a)
    ensures Tokens(Next(s, a), c) == Tokens(s, c) + if c == |s.made| && |Next(s, a).made| > c then 1 else 0
  {
    match a
    case Put(token) => PutKeepsTokens(s, token, c);
    case GoOn(k, pick) =>
      match s.agents[k] {
        case Connected(_) => ReleaseKeepsTokens(s, k, pick, c);
        case Starting(_, _) => StartKeepsTokens(s, k, pick, c);
        case Stopping(_, _) => StopKeepsTokens(s, k, pick, c);
        case _ => CloseKeepsTokens(s, k, pick, c);
      }
    case _ => ArrivalKeepsTokens(s, a, c);
  }

  lemma NextKeepsPlaced(s: State, a: Action)
    requires Placed(s) && Enabled(s, a)
    ensures Placed(Next(s, a))
  {
    var s' := Next(s, a);
    forall t | t in s'.byTok ensures t in s'.ever && Named(s'.byTok[t].ops, t, s'.made) {
      TableStaysNamed(s, a, t);
    }
    forall b | b in s'.agents ensures Proper(s'.made, b) {
      AgentsStayProper(s, a, b);
    }
  }

  lemma TableStaysNamed(s: State, a: Action, t: Token)
    requires Placed(s) && Enabled(s, a) && t in Next(s, a).byTok
    ensures t in Next(s, a).ever && Named(Next(s, a).byTok[t].ops, t, Next(s, a).made)
  {
    assert t in s.byTok ==> Named(s.byTok[t].ops, t, s.made);
    if a.GoOn? {
      ProceedStaysNamed(s, s.agents[a.k], a.pick, t);
    }
  }

  lemma ProceedStaysNamed(s: State, b: Agent, pick: OpId, t: Token)
    requires CanGoOn(s, b, pick) && t in Proceed(s, b, pick).byTok
    requires t in s.byTok ==> t in s.ever && Named(s.byTok[t].ops, t, s.made)
    ensures t in s.ever && Named(Proceed(s, b, pick).byTok[t].ops, t, Proceed(s, b, pick).made)
  {
  }

  lemma AgentsStayProper(s: State, a: Action, b: Agent)
    requires Placed(s) && Enabled(s, a) && b in Next(s, a).agents
    ensures Proper(Next(s, a).made, b)
  {
    if b in s.agents {
      assert Proper(s.made, b);
    } else if a.GoOn? {
      assert b == Becomes(s, s.agents[a.k], a.pick) && Proper(s.made, s.agents[a.k]);
      assert s.agents[a.k].Connected? && s.agents[a.k].token in s.byTok ==>
          Named(s.byTok[s.agents[a.k].token].ops, s.agents[a.k].token, s.made);
    }
  }

  lemma StepKeepsOwnership(s: State, s': State)
    requires Placed(s) && Conserved(s) && Step(s, s')
    ensures Placed(s') && Conserved(s')
  {
    var a :| Enabled(s, a) && s' == Next(s, a);
    NextKeepsPlaced(s, a);
    forall c: nat ensures Tokens(s', c) == if c < |s'.made| then 1 else 0 {
      NextKeepsTokens(s, a, c);
      assert Tokens(s, c) == if c < |s.made| then 1 else 0;
    }
  }

  /** Channel ownership, over every interleaving: each channel is at any time in exactly one of
      these places: the registry, one goroutine about to close it, closed, or lost. So none is
      ever closed twice. */
  lemma {:induction false} RunKeepsOwnership(run: seq<State>, i: nat)
    requires Run(run) && i < |run|
    ensures Placed(run[i]) && Conserved(run[i])
    ensures forall c :: run[i].closed[c] + Held(run[i], c) <= 1
  {
    if i > 0 {
      RunKeepsOwnership(run, i - 1);
      assert StepAt(run, i);
      StepKeepsOwnership(run[i - 1], run[i]);
    }
    forall c ensures run[i].closed[c] + Held(run[i], c) <= 1 {
      assert Tokens(run[i], c) <= 1;
    }
  }

  // ---- stopping one stream ----

  /** A stop on (token, id) takes the channel registered there, if there is one; that channel
      was made for (token, id), and every other registration stays. */
  lemma StopTakesItsOwn(s: State, k: nat, pick: OpId)
    requires Placed(s) && Enabled(s, GoOn(k, pick)) && s.agents[k].Stopping?
    ensures var s' := Next(s, GoOn(k, pick)); var (token, id) := (s.agents[k].token, s.agents[k].id);
            && (s'.agents[k].Holding? <==> Holds(s.byTok, token, id))
            && (s'.agents[k].Holding? ==>
                  s'.agents[k].c < |s.made| && s.made[s'.agents[k].c] == (token, id)
                      && s.byTok[token].ops[id] == s'.agents[k].c)
            && (forall t, a :: Holds(s'.byTok, t, a) <==> Holds(s.byTok, t, a) && (t, a) != (token, id))
            && (forall t, a :: Holds(s'.byTok, t, a) ==> s'.byTok[t].ops[a] == s.byTok[t].ops[a])
  {
    var token := s.agents[k].token;
    assert token in s.byTok ==> Named(s.byTok[token].ops, token, s.made);
  }

  /** Some later stream was given the token and the id of stream c. */
  ghost predicate Superseded(made: seq<(Token, OpId)>, c: ChanId) {
    c < |made| && exists d :: c < d < |made| && made[d] == made[c]
  }

  /** What is registered under a name is the channel made last for it. */
  ghost predicate LatestHeld(s: State) {
    forall t, id :: Holds(s.byTok, t, id) ==>
      s.byTok[t].ops[id] < |s.made| && s.made[s.byTok[t].ops[id]] == (t, id) && !Superseded(s.made, s.byTok[t].ops[id])
  }

  lemma StartKeepsLatest(s: State, token: Token, id: OpId)
    requires LatestHeld(s)
    ensures LatestHeld(Start(s, token, id))
  {
    var s' := Start(s, token, id);
    forall t, a | Holds(s'.byTok, t, a)
      ensures s'.byTok[t].ops[a] < |s'.made| && s'.made[s'.byTok[t].ops[a]] == (t, a)
                && !Superseded(s'.made, s'.byTok[t].ops[a]) {
      if (t, a) != (token, id) {
        assert Holds(s.byTok, t, a) && s'.byTok[t].ops[a] == s.byTok[t].ops[a];
        StaysLatest(s.made, (token, id), s.byTok[t].ops[a]);
      }
    }
  }

  lemma StaysLatest(made: seq<(Token, OpId)>, name: (Token, OpId), c: ChanId)
    requires c < |made| && made[c] != name && !Superseded(made, c)
    ensures !Superseded(made + [name], c)
  {
    var longer := made + [name];
    forall d | c < d < |longer| ensures longer[d] != longer[c] {
      assert d < |made| ==> longer[d] == made[d];
    }
  }

  /** No other step registers anything. */
  lemma OtherStepsOnlyRemove(s: State, a: Action, t: Token, id: OpId)
    requires Enabled(s, a) && !(a.GoOn? && s.agents[a.k].Starting?) && Holds(Next(s, a).byTok, t, id)
    ensures Holds(s.byTok, t, id) && Next(s, a).byTok[t].ops[id] == s.byTok[t].ops[id] && Next(s, a).made == s.made
  {
  }

  lemma StepKeepsLatest(s: State, s': State)
    requires LatestHeld(s) && Step(s, s')
    ensures LatestHeld(s')
  {
    var a :| Enabled(s, a) && s' == Next(s, a);
    if a.GoOn? && s.agents[a.k].Starting? {
      var token, id := s.agents[a.k].token, s.agents[a.k].id;
      StartKeepsLatest(s, token, id);
      assert s'.byTok == Start(s, token, id).byTok && s'.made == Start(s, token, id).made;
    } else {
      forall t, id | Holds(s'.byTok, t, id)
        ensures s'.byTok[t].ops[id] < |s'.made| && s'.made[s'.byTok[t].ops[id]] == (t, id)
                  && !Superseded(s'.made, s'.byTok[t].ops[id]) {
        OtherStepsOnlyRemove(s, a, t, id);
      }
    }
  }

  lemma {:induction false} RunKeepsLatest(run: seq<State>, i: nat)
    requires Run(run) && i < |run|
    ensures LatestHeld(run[i])
  {
    if i == 0 {
    } else {
      RunKeepsLatest(run, i - 1);
      assert StepAt(run, i);
      StepKeepsLatest(run[i - 1], run[i]);
    }
  }

  lemma OneIsLatest(made: seq<(Token, OpId)>, c: ChanId, d: ChanId)
    requires c < |made| && d < |made| && made[c] == made[d] && !Superseded(made, d)
    ensures c == d <==> !Superseded(made, c)
  {
    if c < d {
      assert Superseded(made, c);
    }
  }

  /** The stop that stream c defers, or that a failed emit of c asks for, takes some channel if its
      name is registered. That channel is c's own if and only if no later stream was given the same
      token and id. */
  lemma StopTakesOwnIff(run: seq<State>, i: nat, k: nat, pick: OpId, c: ChanId)
    requires Run(run) && i < |run| && c < |run[i].made| && Enabled(run[i], GoOn(k, pick))
    requires run[i].agents[k] == Stopping(run[i].made[c].0, run[i].made[c].1)
    requires Holds(run[i].byTok, run[i].made[c].0, run[i].made[c].1)
    ensures Next(run[i], GoOn(k, pick)).agents[k].Holding?
    ensures Next(run[i], GoOn(k, pick)).agents[k] == Holding(c) <==> !Superseded(run[i].made, c)
  {
    RunKeepsLatest(run, i);
    var s := run[i];
    OneIsLatest(s.made, c, s.byTok[s.made[c].0].ops[s.made[c].1]);
  }

  // ---- releasing a token ----

  predicate Released(s: State, token: Token) {
    token in s.ever && token !in s.byTok
  }

  lemma ReleasedStays(s: State, s': State, token: Token)
    requires Step(s, s') && Released(s, token)
    ensures Released(s', token)
  {
  }

  /** A released token is never routable again: no connection attaches to it and no operation
      is routed to it, for the rest of the run. */
  lemma {:induction false} ReleaseIsFinal(run: seq<State>, i: nat, j: nat, token: Token)
    requires Run(run) && i <= j < |run| && Released(run[i], token)
    ensures Released(run[j], token)
    ensures forall w :: !Enabled(run[j], Get(token, w))
    ensures forall id :: !Enabled(run[j], Post(token, id)) && !Holds(run[j].byTok, token, id)
    decreases j
  {
    if i < j {
      ReleaseIsFinal(run, i, j - 1, token);
      assert StepAt(run, j);
      ReleasedStays(run[j - 1], run[j], token);
    }
  }

  /** Channel c has been taken out of the registry by someone who closes it, or has closed it. */
  ghost predicate Doomed(s: State, c: ChanId) {
    c < |s.made| && Held(s, c) + s.closed[c] == 1
  }

  lemma DoomedStays(s: State, s': State, c: ChanId)
    requires Placed(s) && Conserved(s) && Step(s, s') && Doomed(s, c)
    ensures Doomed(s', c)
  {
    var a :| Enabled(s, a) && s' == Next(s, a);
    assert Tokens(s, c) == 1;
    NextKeepsTokens(s, a, c);
    if a.GoOn? && s.agents[a.k].Starting? {
      StartMovesTable(s, s.agents[a.k].token, s.agents[a.k].id, c);
    } else {
      OutsideStaysOutside(s, a, c);
    }
  }

  lemma OutsideStaysOutside(s: State, a: Action, c: ChanId)
    requires Enabled(s, a) && c < |s.made| && !(a.GoOn? && s.agents[a.k].Starting?)
    requires InTable(s.byTok, s.made, c) == 0 && s.lost[c] == 0
    ensures InTable(Next(s, a).byTok, Next(s, a).made, c) == 0 && Next(s, a).lost[c] == 0
  {
  }

  lemma ReleaseDooms(s: State, k: nat, id: OpId)
    requires Placed(s) && Conserved(s) && k < |s.agents| && s.agents[k].Connected?
    requires Holds(s.byTok, s.agents[k].token, id)
    ensures Doomed(Next(s, GoOn(k, id)), s.byTok[s.agents[k].token].ops[id])
  {
    var token := s.agents[k].token;
    var c := s.byTok[token].ops[id];
    assert Named(s.byTok[token].ops, token, s.made) && Tokens(s, c) == 1;
    ReleaseKeepsTokens(s, k, id, c);
  }

  lemma DoomedAt(run: seq<State>, j: nat, c: ChanId)
    requires Run(run) && 0 < j < |run| && Doomed(run[j - 1], c)
    ensures Doomed(run[j], c)
  {
    RunKeepsOwnership(run, j - 1);
    assert StepAt(run, j);
    DoomedStays(run[j - 1], run[j], c);
  }

  lemma {:induction false} DoomedForever(run: seq<State>, i: nat, j: nat, c: ChanId)
    requires Run(run) && i <= j < |run| && Doomed(run[i], c)
    ensures Doomed(run[j], c)
    decreases j
  {
    if i < j {
      DoomedForever(run, i, j - 1, c);
      DoomedAt(run, j, c);
    }
  }

  /** From the moment a token is released, each channel then registered under it has exactly one
      closer, until it is closed, in the rest of every run. */
  lemma ReleaseDoomsItsStreams(run: seq<State>, i: nat, j: nat, k: nat, id: OpId)
    requires Run(run) && i < j < |run| && k < |run[i].agents| && run[i].agents[k].Connected?
    requires run[i + 1] == Next(run[i], GoOn(k, id)) && Holds(run[i].byTok, run[i].agents[k].token, id)
    ensures Doomed(run[j], run[i].byTok[run[i].agents[k].token].ops[id])
  {
    RunKeepsOwnership(run, i);
    ReleaseDooms(run[i], k, id);
    DoomedForever(run, i + 1, j, run[i].byTok[run[i].agents[k].token].ops[id]);
  }

  /** Once every goroutine is done and every token released, a channel has been closed, exactly
      once, or was lost. */
  lemma QuiescentMeansClosedOrLost(run: seq<State>, i: nat, c: ChanId)
    requires Run(run) && i < |run| && c < |run[i].made| && run[i].byTok == map[]
    requires forall k :: 0 <= k < |run[i].agents| ==> run[i].agents[k].AgentDone?
    ensures run[i].closed[c] + run[i].lost[c] == 1
  {
    RunKeepsOwnership(run, i);
    assert Tokens(run[i], c) == 1;
    TotalIsZero(Closes(run[i].made, c), run[i].agents);
  }

  // ---- lost channels ----

  /** A channel is lost only if a later stream was given its token and its id, or the token was
      released; with operation ids used once per token and no token released, none is. */
  ghost predicate LossExplained(s: State) {
    forall c :: s.lost[c] > 0 ==> c < |s.made| && (Superseded(s.made, c) || Released(s, s.made[c].0))
  }

  lemma StartExplainsLoss(s: State, token: Token, id: OpId, c: ChanId)
    requires Placed(s) && LossExplained(s) && token in s.ever && Start(s, token, id).lost[c] > 0
    ensures var s' := Start(s, token, id);
            c < |s'.made| && (Superseded(s'.made, c) || Released(s', s'.made[c].0))
  {
    var s' := Start(s, token, id);
    if s.lost[c] > 0 {
      if Superseded(s.made, c) {
        var d :| c < d < |s.made| && s.made[d] == s.made[c];
        assert s'.made[d] == s'.made[c];
      }
    } else if token in s.byTok {
      assert Named(s.byTok[token].ops, token, s.made);
      assert s'.made[|s.made|] == s'.made[c];
    }
  }

  lemma OtherStepsLoseNothing(s: State, a: Action)
    requires Enabled(s, a) && !(a.GoOn? && s.agents[a.k].Starting?)
    ensures Next(s, a).lost == s.lost && Next(s, a).made == s.made
  {
  }

  lemma StepExplainsLoss(s: State, s': State)
    requires Placed(s) && LossExplained(s) && RoutedWasReserved(s) && Step(s, s')
    ensures LossExplained(s')
  {
    var a :| Enabled(s, a) && s' == Next(s, a);
    forall c | s'.lost[c] > 0 ensures c < |s'.made| && (Superseded(s'.made, c) || Released(s', s'.made[c].0)) {
      if a.GoOn? && s.agents[a.k].Starting? {
        StartExplainsLoss(s, s.agents[a.k].token, s.agents[a.k].id, c);
      } else {
        OtherStepsLoseNothing(s, a);
        if !Superseded(s.made, c) {
          ReleasedStays(s, s', s.made[c].0);
        }
      }
    }
  }

  /** A routed operation belongs to a token that was reserved. */
  predicate RoutedWasReserved(s: State) {
    && (forall t :: t in s.byTok ==> t in s.ever)
    && (forall a :: a in s.agents && a.Starting? ==> a.token in s.ever)
  }

  lemma StepKeepsRouted(s: State, s': State)
    requires RoutedWasReserved(s) && Step(s, s')
    ensures RoutedWasReserved(s')
  {
    var a :| Enabled(s, a) && s' == Next(s, a);
    ReservedStays(s, a);
    forall b | b in s'.agents && b.Starting? ensures b.token in s'.ever {
      RoutedStays(s, a, b);
    }
  }

  lemma ReservedStays(s: State, a: Action)
    requires Enabled(s, a) && forall t :: t in s.byTok ==> t in s.ever
    ensures forall t :: t in Next(s, a).byTok ==> t in Next(s, a).ever
    ensures forall t :: t in s.ever ==> t in Next(s, a).ever
  {
  }

  lemma RoutedStays(s: State, a: Action, b: Agent)
    requires Enabled(s, a) && b in Next(s, a).agents && b.Starting?
    ensures b in s.agents || b.token in s.byTok
  {
    if a.GoOn? {
      assert b in s.agents;
    }
  }

  lemma ExplainedAt(run: seq<State>, j: nat)
    requires Run(run) && 0 < j < |run| && LossExplained(run[j - 1]) && RoutedWasReserved(run[j - 1])
    ensures LossExplained(run[j]) && RoutedWasReserved(run[j])
  {
    RunKeepsOwnership(run, j - 1);
    assert StepAt(run, j);
    StepKeepsRouted(run[j - 1], run[j]);
    StepExplainsLoss(run[j - 1], run[j]);
  }

  lemma {:induction false} RunExplainsLoss(run: seq<State>, i: nat)
    requires Run(run) && i < |run|
    ensures LossExplained(run[i]) && RoutedWasReserved(run[i])
  {
    if i > 0 {
      RunExplainsLoss(run, i - 1);
      ExplainedAt(run, i);
    }
  }

  // ---- which starts lose a channel ----

  /** What a caller of StartOperation could check first: the token is unknown, or the id is taken. */
  predicate Drops<C>(v: Table<C>, token: Token, id: OpId) {
    token !in v || id in v[token].ops
  }

  /** A start loses a channel if and only if its token is not registered or its id is in use; then
      it loses exactly one, its own or the one it replaces. */
  lemma StartLosesIff(s: State, token: Token, id: OpId)
    ensures var s' := Start(s, token, id);
            && (s'.lost == s.lost <==> !Drops(s.byTok, token, id))
            && |s'.lost| == |s.lost| + (if Drops(s.byTok, token, id) then 1 else 0)
            && (token !in s.byTok ==> s'.lost == s.lost + multiset{|s.made|})
            && (Holds(s.byTok, token, id) ==> s'.lost == s.lost + multiset{s.byTok[token].ops[id]})
  {
    var s' := Start(s, token, id);
    if !Drops(s.byTok, token, id) {
      assert s.lost + multiset{} == s.lost;
    }
  }

  /** The step to state j of a run starts a stream that loses a channel. */
  predicate LosesAt(run: seq<State>, j: nat)
    requires 0 < j < |run|
  {
    var s, s' := run[j - 1], run[j];
    |s'.made| > |s.made| && Drops(s.byTok, s'.made[|s.made|].0, s'.made[|s.made|].1)
  }

  function LossesUpTo(run: seq<State>, i: nat): nat
    requires i < |run|
  {
    if i == 0 then 0 else LossesUpTo(run, i - 1) + if LosesAt(run, i) then 1 else 0
  }

  lemma StepLoses(run: seq<State>, j: nat)
    requires Run(run) && 0 < j < |run|
    ensures |run[j].lost| == |run[j - 1].lost| + if LosesAt(run, j) then 1 else 0
  {
    var s, s' := run[j - 1], run[j];
    assert StepAt(run, j);
    var a :| Enabled(s, a) && s' == Next(s, a);
    if a.GoOn? && s.agents[a.k].Starting? {
      StartLosesIff(s, s.agents[a.k].token, s.agents[a.k].id);
    } else {
      OtherStepsLoseNothing(s, a);
    }
  }

  /** A run has lost one channel for each start whose token was not registered or whose id was in
      use, and none if and only if there was no such start. */
  lemma {:induction false} RunLosesIff(run: seq<State>, i: nat)
    requires Run(run) && i < |run|
    ensures |run[i].lost| == LossesUpTo(run, i)
    ensures run[i].lost == multiset{} <==> forall j :: 0 < j <= i ==> !LosesAt(run, j)
  {
    if i == 0 {
    } else {
      RunLosesIff(run, i - 1);
      StepLoses(run, i);
      assert run[i].lost == multiset{} <==> |run[i].lost| == 0;
      assert run[i - 1].lost == multiset{} <==> |run[i - 1].lost| == 0;
    }
  }

  /** With operation ids used once per token, every channel whose token is still registered is
      in the registry, about to be closed or closed: nothing is lost before a release. */
  lemma UniqueIdsLoseNothing(run: seq<State>, i: nat, c: ChanId)
    requires Run(run) && i < |run| && NoDup(run[i].made)
    requires c < |run[i].made| && run[i].made[c].0 in run[i].byTok
    ensures run[i].lost[c] == 0
    ensures InTable(run[i].byTok, run[i].made, c) + Held(run[i], c) + run[i].closed[c] == 1
  {
    RunKeepsOwnership(run, i);
    RunExplainsLoss(run, i);
    assert Tokens(run[i], c) == 1;
  }

  // ---- what the registry does not promise ----

  function Last(run: seq<State>): State
    requires run != []
  {
    run[|run| - 1]
  }

  lemma Extends(run: seq<State>, a: Action) returns (longer: seq<State>)
    requires Run(run) && Enabled(Last(run), a)
    ensures Run(longer) && Last(longer) == Next(Last(run), a)
  {
    longer := run + [Next(Last(run), a)];
    forall j | 0 < j < |longer| ensures StepAt(longer, j) {
      if j < |run| {
        assert StepAt(run, j);
      } else {
        assert Step(Last(run), longer[j]);
      }
    }
  }

  /** A connection attaches to the only token, twice: the second takes the token over. */
  lemma AttachTwice() returns (run: seq<State>)
    ensures Run(run) && Last(run).byTok == map["t" := Entry(Some(2), map[])]
    ensures Last(run).agents == [Connected("t"), Connected("t")]
    ensures Last(run).made == [] && Last(run).ever == {"t"} && Last(run).closed == Last(run).lost == multiset{}
  {
    run := Extends([INITIAL], Put("t"));
    run := Extends(run, Get("t", 1));
    run := Extends(run, Get("t", 2));
  }

  /** An operation id that is used again while its first stream runs loses the first channel:
      two streams run, and a stop of the id can only ever reach the second. */
  lemma ReusedIdLosesChannel() returns (run: seq<State>)
    ensures Run(run) && Last(run).lost == multiset{0} && Last(run).made == [("t", "a"), ("t", "a")]
    ensures Last(run).byTok == map["t" := Entry(Some(2), map["a" := 1])] && Last(run).closed == multiset{}
    ensures Last(run).agents == [Connected("t"), Connected("t"), Running(0), Running(1)]
  {
    run := AttachTwice();
    run := Extends(run, Post("t", "a"));
    run := Extends(run, Post("t", "a"));
    assert Last(run).agents == [Connected("t"), Connected("t"), Starting("t", "a"), Starting("t", "a")];
    run := Extends(run, GoOn(2, ""));
    assert Last(run).byTok["t"].ops == map["a" := 0];
    run := Extends(run, GoOn(3, ""));
    assert Last(run).byTok["t"].ops == map["a" := 1];
  }

  /** When the handler of the first of two streams under one id returns, its stop closes the
      channel of the second, which still runs. */
  lemma StaleStopCancelsNewerStream() returns (run: seq<State>)
    ensures Run(run) && Last(run).closed == multiset{1}
              && Last(run).agents == [Connected("t"), Connected("t"), AgentDone, Running(1)]
    ensures Last(run).made == [("t", "a"), ("t", "a")] && Last(run).byTok == map["t" := Entry(Some(2), map[])]
  {
    run := ReusedIdLosesChannel();
    run := Extends(run, GoOn(2, ""));
    assert Last(run).agents[2] == Stopping("t", "a");
    run := Extends(run, GoOn(2, ""));
    assert Last(run).agents[2] == Holding(1) && Last(run).byTok["t"].ops == map[];
    run := Extends(run, GoOn(2, ""));
  }

  /** An operation that was routed just before the release runs on with a channel that the
      registry refused: no stop and no release will ever close it. */
  lemma LateStartLosesChannel() returns (run: seq<State>)
    ensures Run(run) && Last(run).lost == multiset{0} && Last(run).byTok == map[]
    ensures Last(run).agents == [ClosingAll("t", map[]), Connected("t"), Running(0)]
  {
    run := AttachTwice();
    run := Extends(run, Post("t", "a"));
    run := Extends(run, GoOn(0, ""));
    run := Extends(run, GoOn(2, ""));
  }
}
