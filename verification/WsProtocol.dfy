// internal/graphql/ws_protocol.go: one graphql-transport-ws connection. The operation table is
// a class; the connection with its read loop and its stream goroutines is a step system in
// which every lock region, every write and every close is a step of its own.
module WsProtocol {
  import opened Graphs
  import opened Channels

  // ---- the operation table ----

  class OperationTable {
    var activeOps: map<OpId, Chan>

    constructor ()
      ensures activeOps == map[]
    {
      activeOps := map[];
    }

    method RegisterOp(id: OpId, done: Chan)
      modifies this
      ensures activeOps == WithOp(old(activeOps), id, done)
    {
      activeOps := activeOps[id := done];
    }

    method IsOpActive(id: OpId) returns (ok: bool)
      ensures ok <==> id in activeOps
    {
      ok := id in activeOps;
    }

    /** The lock region of stopOp: the stream goes, and is handed to the caller. */
    method TakeOut(id: OpId) returns (done: Option<Chan>)
      requires OpenAndDistinct(activeOps)
      modifies this
      ensures done == Taken(old(activeOps), id) && activeOps == WithoutOp(old(activeOps), id)
      ensures OpenAndDistinct(activeOps) && (done.Some? ==> !done.value.closed && done.value !in activeOps.Values)
    {
      done := if id in activeOps then Some(activeOps[id]) else None;
      activeOps := activeOps - {id};
    }

    /** Cancels one stream and leaves the others alone; a second call does nothing. */
    method StopOp(id: OpId)
      requires OpenAndDistinct(activeOps)
      modifies this, activeOps.Values
      ensures activeOps == WithoutOp(old(activeOps), id) && OpenAndDistinct(activeOps)
      ensures forall c :: Taken(old(activeOps), id) == Some(c) ==> c.closed
      ensures forall c :: c in activeOps.Values ==> !c.closed
    {
      var done := TakeOut(id);
      if done.Some? {
        done.value.Close();
      }
    }

    /** The lock region of stopAllOps: all streams go, and are handed to the caller. */
    method TakeAll() returns (toClose: seq<Chan>)
      requires OpenAndDistinct(activeOps)
      modifies this
      ensures activeOps == map[] && NoDup(toClose) && forall c :: c in toClose <==> c in old(activeOps).Values
    {
      toClose := DrainTable(activeOps);
      activeOps := map[];
    }

    /** Cancels every stream that is still registered, each once. */
    method StopAllOps()
      requires OpenAndDistinct(activeOps)
      modifies this, activeOps.Values
      ensures activeOps == map[] && forall c :: c in old(activeOps).Values ==> c.closed
    {
      var toClose := TakeAll();
      CloseAll(toClose);
    }
  }

  // ---- the connection as a step system ----

  datatype Payload = BadPayload | BadQuery | Streaming | SingleResult

  /** A frame from the client. Anything but the five known kinds, pongs included, is Unknown. */
  datatype Message =
    | BadJson
    | ConnectionInit
    | Ping
    | Subscribe(id: OpId, payload: Payload)
    | CompleteMsg(id: OpId)
    | Unknown

  datatype FrameKind = Ack | Pong | Next(id: OpId) | Error(id: OpId) | Complete(id: OpId)

  /** A WriteMessage call and whether it succeeded. */
  datatype Frame = Frame(kind: FrameKind, ok: bool)

  /** Where the connection's own goroutine stands. */
  datatype Loop =
    | FirstRead
    | Reading
    | Handling(m: Message)
    | WritingAck
    | WritingPong
    | CheckingActive(id: OpId, payload: Payload)
    | Dispatching(id: OpId, payload: Payload)
    | WritingError(id: OpId)
    | Registering(id: OpId)
    | Launching(c: ChanId)
    | WritingNext(id: OpId)
    | WritingComplete(id: OpId)
    | StoppingOp(id: OpId)
    | ClosingOp(c: ChanId)
    | Sweeping
    | ClosingAll(rest: map<OpId, ChanId>)
    | Exited

  /** A stream goroutine, or the stopOp call of a failed emit: running its handler, about to
      take the lock on behalf of stream c, about to close what it took, or done. */
  datatype Agent = Running(c: ChanId) | Stopping(c: ChanId) | Holding(c: ChanId) | AgentDone

  /** Channel c was made for the stream with id ops[c]. */
  datatype State = State(
    loop: Loop,
    acked: bool,
    active: map<OpId, ChanId>,
    ops: seq<OpId>,
    agents: seq<Agent>,
    closed: multiset<ChanId>,
    frames: seq<Frame>,
    closeCode: Option<nat>)

  function Initial(): State {
    State(FirstRead, false, map[], [], [], multiset{}, [], None)
  }

  /** What the environment decides about a step of the connection's goroutine: the message it
      reads, a failed read or an expired timer, a panic, or the outcome of a write. A query result
      that does not encode as JSON is dropped and counts as written; a range loop over a map picks
      its keys in any order. */
  datatype Input = Receives(m: Message) | ReadFails | TimesOut | Panics | WriteOk | WriteFails | Unencodable
      | Picks(id: OpId)

  /** Where to go next, and with which close code if the connection is to be closed. */
  datatype Turn = Go(l: Loop) | GoAcked | Shut(code: nat)

  /** handleMessage: the dispatch on the message type. */
  function Dispatch(acked: bool, m: Message): Turn {
    match m
    case BadJson => Shut(4400)
    case ConnectionInit => if acked then Shut(4429) else GoAcked
    case Ping => Go(WritingPong)
    case Subscribe(id, payload) => if !acked then Shut(4401) else Go(CheckingActive(id, payload))
    case CompleteMsg(id) => Go(StoppingOp(id))
    case Unknown => Shut(4400)
  }

  /** handleSubscribe, once the duplicate check has passed. */
  function DispatchSubscribe(id: OpId, payload: Payload): Loop {
    match payload
    case BadPayload => WritingError(id)
    case BadQuery => WritingError(id)
    case Streaming => Registering(id)
    case SingleResult => WritingNext(id)
  }

  function Read(first: bool, input: Input): Turn {
    match input
    case Receives(m) => Go(Handling(m))
    case TimesOut => if first then Shut(4408) else Go(Sweeping)
    case _ => Go(Sweeping)
  }

  /** The steps that only decide how to go on; isOpActive looks at the table. */
  predicate Decides(l: Loop) {
    l.FirstRead? || l.Reading? || l.Handling? || l.CheckingActive? || l.Dispatching?
  }

  function Decide(s: State, input: Input): Turn
    requires Decides(s.loop)
  {
    match s.loop
    case FirstRead => Read(true, input)
    case Reading => Read(false, input)
    case Handling(m) => Dispatch(s.acked, m)
    case CheckingActive(id, payload) => if id in s.active then Shut(4409) else Go(Dispatching(id, payload))
    case Dispatching(id, payload) => if input == Panics then Go(Sweeping) else Go(DispatchSubscribe(id, payload))
  }

  function Turned(s: State, t: Turn): State {
    match t
    case Go(l) => s.(loop := l)
    case GoAcked => s.(acked := true, loop := WritingAck)
    case Shut(code) => s.(loop := Sweeping, closeCode := Some(code))
  }

  /** The steps that write a frame, with the frame and what follows a successful write. */
  predicate Writes(l: Loop) {
    l.WritingAck? || l.WritingPong? || l.WritingError? || l.WritingNext? || l.WritingComplete?
  }

  function Written(l: Loop): (FrameKind, Loop)
    requires Writes(l)
  {
    match l
    case WritingAck => (Ack, Reading)
    case WritingPong => (Pong, Reading)
    case WritingError(id) => (Error(id), Reading)
    case WritingNext(id) => (Next(id), WritingComplete(id))
    case WritingComplete(id) => (Complete(id), Reading)
  }

  /** The steps that touch the table or close a channel. */
  function Handle(s: State, input: Input): State
    requires !Decides(s.loop) && !Writes(s.loop)
  {
    match s.loop
    case Registering(id) =>
      s.(active := WithOp(s.active, id, |s.ops|), ops := s.ops + [id], loop := Launching(|s.ops|))
    case Launching(c) => s.(agents := s.agents + [Running(c)], loop := Reading)
    case StoppingOp(id) =>
      s.(active := WithoutOp(s.active, id),
          loop := match Taken(s.active, id) case Some(c) => ClosingOp(c) case None => Reading)
    case ClosingOp(c) => s.(closed := s.closed + multiset{c}, loop := Reading)
    case Sweeping => s.(active := map[], loop := ClosingAll(s.active))
    case ClosingAll(rest) =>
      if rest == map[] then s.(loop := Exited)
      else if input.Picks? && input.id in rest then
        s.(closed := s.closed + multiset{rest[input.id]}, loop := ClosingAll(rest - {input.id}))
      else s
    case Exited => s
  }

  function LoopStep(s: State, input: Input): State {
    if Decides(s.loop) then Turned(s, Decide(s, input))
    else if Writes(s.loop) then
      var (kind, next) := Written(s.loop);
      if input.Unencodable? && s.loop.WritingNext? then s.(loop := next)
      else s.(frames := s.frames + [Frame(kind, input == WriteOk)], loop := if input == WriteOk then next else Sweeping)
    else Handle(s, input)
  }

  /** A stream emits, even after its handler was cancelled; a failed write starts a stopOp. */
  function Emit(s: State, c: ChanId, ok: bool): State
    requires c < |s.ops|
  {
    s.(frames := s.frames + [Frame(Next(s.ops[c]), ok)],
       agents := if ok then s.agents else s.agents + [Stopping(c)])
  }

  predicate Launchable(s: State, a: Agent) {
    a.Running? || a.Stopping? ==> a.c < |s.ops|
  }

  function AgentStep(s: State, k: nat): State
    requires k < |s.agents| && Launchable(s, s.agents[k])
  {
    match s.agents[k]
    case Running(c) => s.(agents := s.agents[k := Stopping(c)])
    case Stopping(c) =>
      var id := s.ops[c];
      s.(active := WithoutOp(s.active, id),
         agents := s.agents[k := match Taken(s.active, id) case Some(d) => Holding(d) case None => AgentDone])
    case Holding(c) => s.(closed := s.closed + multiset{c}, agents := s.agents[k := AgentDone])
    case AgentDone => s
  }

  /** A stream goroutine exists once it is launched; only then can its handler emit. */
  predicate Launched(s: State, c: ChanId) {
    c < |s.ops| && s.loop != Launching(c)
  }

  ghost predicate Step(s: State, s': State) {
    || (!s.loop.Exited? && exists input :: s' == LoopStep(s, input))
    || (exists c, ok :: Launched(s, c) && s' == Emit(s, c, ok))
    || (exists k: nat ::
        k < |s.agents| && Launchable(s, s.agents[k]) && !s.agents[k].AgentDone? && s' == AgentStep(s, k))
  }

  ghost predicate StepAt(run: seq<State>, j: nat)
    requires 0 < j < |run|
  {
    Step(run[j - 1], run[j])
  }

  ghost predicate Run(run: seq<State>) {
    && run != [] && run[0] == Initial()
    && forall j :: 0 < j < |run| ==> StepAt(run, j)
  }

  // ---- where a channel is ----

  /** How often the connection's own goroutine is about to close c. */
  function LoopHolds(l: Loop, ops: seq<OpId>, c: ChanId): nat {
    match l
    case ClosingOp(d) => if c == d then 1 else 0
    case ClosingAll(rest) => InTable(rest, ops, c)
    case _ => 0
  }

  function Holds(c: ChanId): Agent -> nat {
    a => if a == Holding(c) then 1 else 0
  }

  function InTable(active: map<OpId, ChanId>, ops: seq<OpId>, c: ChanId): nat {
    if c < |ops| then Registration(active, ops[c], c) else 0
  }

  /** How often a channel occurs among the table, the goroutines about to close it, and the
      closings done. */
  function Tokens(s: State, c: ChanId): nat {
    InTable(s.active, s.ops, c) + LoopHolds(s.loop, s.ops, c) + Total(Holds(c), s.agents) + s.closed[c]
  }

  /** An id is registered with the channel made last for it. */
  predicate TableOk(active: map<OpId, ChanId>, ops: seq<OpId>) {
    forall id :: id in active ==> IsLatest(ops, active[id], id)
  }

  predicate IsLatest(ops: seq<OpId>, c: ChanId, id: OpId) {
    c < |ops| && ops[c] == id && forall d :: c < d < |ops| ==> ops[d] != id
  }

  /** A channel that was made is in exactly one place, and no other channel is anywhere. */
  ghost predicate Conserved(s: State) {
    forall c: nat :: Tokens(s, c) == if c < |s.ops| then 1 else 0
  }

  predicate Teardown(l: Loop) {
    l.ClosingAll? || l.Exited?
  }

  ghost predicate Placed(s: State) {
    && TableOk(s.active, s.ops)
    && (s.loop.ClosingAll? ==> TableOk(s.loop.rest, s.ops))
    && (s.loop.Dispatching? ==> s.loop.id !in s.active)
    && (s.loop.Registering? ==> s.loop.id !in s.active)
    && (s.loop.Launching? ==> s.loop.c < |s.ops|)
    && (Teardown(s.loop) ==> s.active == map[])
    && (forall k :: 0 <= k < |s.agents| ==> Launchable(s, s.agents[k]))
  }

  ghost predicate Ownership(s: State) {
    Placed(s) && Conserved(s)
  }

  lemma DecideKeepsTokens(s: State, input: Input, c: ChanId)
    requires Placed(s) && Decides(s.loop)
    ensures Tokens(Turned(s, Decide(s, input)), c) == Tokens(s, c)
  {
  }

  lemma WriteKeepsTokens(s: State, input: Input, c: ChanId)
    requires Placed(s) && Writes(s.loop)
    ensures Tokens(LoopStep(s, input), c) == Tokens(s, c)
  {
  }

  /** Each step of the connection's goroutine moves a channel on, or makes a new one. */
  lemma LoopKeepsTokens(s: State, input: Input, c: ChanId)
    requires Placed(s)
    ensures var s' := LoopStep(s, input);
            Tokens(s', c) == Tokens(s, c) + if s.loop.Registering? && c == |s.ops| then 1 else 0
  {
    if Decides(s.loop) {
      DecideKeepsTokens(s, input, c);
    } else if Writes(s.loop) {
      WriteKeepsTokens(s, input, c);
    } else {
      HandleKeepsTokens(s, input, c);
    }
  }

  /** Taking an entry out of the table moves its channel, and only its channel, out of it. */
  lemma TakingMovesOne(active: map<OpId, ChanId>, ops: seq<OpId>, id: OpId, c: ChanId)
    requires TableOk(active, ops)
    ensures InTable(active, ops, c) == InTable(active - {id}, ops, c) + if id in active && active[id] == c then 1 else 0
  {
  }

  lemma RegisteringAddsOne(active: map<OpId, ChanId>, ops: seq<OpId>, id: OpId, c: ChanId)
    requires id !in active && TableOk(active, ops)
    ensures InTable(active[id := |ops|], ops + [id], c) == InTable(active, ops, c) + if c == |ops| then 1 else 0
  {
  }

  lemma RegisterKeepsTokens(s: State, input: Input, c: ChanId)
    requires Placed(s) && s.loop.Registering?
    ensures Tokens(Handle(s, input), c) == Tokens(s, c) + if c == |s.ops| then 1 else 0
  {
    RegisteringAddsOne(s.active, s.ops, s.loop.id, c);
  }

  lemma StopKeepsTokens(s: State, input: Input, c: ChanId)
    requires Placed(s) && s.loop.StoppingOp?
    ensures Tokens(Handle(s, input), c) == Tokens(s, c)
  {
    TakingMovesOne(s.active, s.ops, s.loop.id, c);
  }

  lemma CloseKeepsTokens(s: State, input: Input, c: ChanId)
    requires Placed(s) && (s.loop.ClosingOp? || s.loop.ClosingAll? || s.loop.Exited?)
    ensures Tokens(Handle(s, input), c) == Tokens(s, c)
  {
    if s.loop.ClosingAll? && input.Picks? {
      TakingMovesOne(s.loop.rest, s.ops, input.id, c);
    }
  }

  lemma SweepKeepsTokens(s: State, input: Input, c: ChanId)
    requires s.loop.Sweeping?
    ensures Tokens(Handle(s, input), c) == Tokens(s, c)
  {
  }

  lemma LaunchKeepsTokens(s: State, input: Input, c: ChanId)
    requires s.loop.Launching?
    ensures Tokens(Handle(s, input), c) == Tokens(s, c)
  {
    TotalAppends(Holds(c), s.agents, Running(s.loop.c));
  }

  lemma HandleKeepsTokens(s: State, input: Input, c: ChanId)
    requires Placed(s) && !Decides(s.loop) && !Writes(s.loop)
    ensures Tokens(Handle(s, input), c) == Tokens(s, c) + if s.loop.Registering? && c == |s.ops| then 1 else 0
  {
    match s.loop
    case Registering(_) => RegisterKeepsTokens(s, input, c);
    case Launching(_) => LaunchKeepsTokens(s, input, c);
    case StoppingOp(_) => StopKeepsTokens(s, input, c);
    case Sweeping => SweepKeepsTokens(s, input, c);
    case _ => CloseKeepsTokens(s, input, c);
  }

  lemma LoopKeepsPlaced(s: State, input: Input)
    requires Placed(s)
    ensures Placed(LoopStep(s, input))
  {
    if Decides(s.loop) {
      DecideKeepsPlaced(s, input);
    } else if !Writes(s.loop) {
      HandleKeepsPlaced(s, input);
    }
  }

  lemma DecideKeepsPlaced(s: State, input: Input)
    requires Placed(s) && Decides(s.loop)
    ensures Placed(Turned(s, Decide(s, input)))
  {
  }

  lemma HandleKeepsPlaced(s: State, input: Input)
    requires Placed(s) && !Decides(s.loop) && !Writes(s.loop)
    ensures Placed(Handle(s, input))
  {
  }

  lemma LoopKeepsOwnership(s: State, input: Input)
    requires Ownership(s)
    ensures Ownership(LoopStep(s, input))
  {
    LoopKeepsPlaced(s, input);
    var s' := LoopStep(s, input);
    forall c: nat ensures Tokens(s', c) == if c < |s'.ops| then 1 else 0 {
      LoopKeepsTokens(s, input, c);
      assert Tokens(s, c) == if c < |s.ops| then 1 else 0;
    }
  }

  lemma EmitKeepsOwnership(s: State, c: ChanId, ok: bool)
    requires Ownership(s) && c < |s.ops|
    ensures Ownership(Emit(s, c, ok))
  {
    var s' := Emit(s, c, ok);
    forall d: nat ensures Tokens(s', d) == if d < |s'.ops| then 1 else 0 {
      TotalAppends(Holds(d), s.agents, Stopping(c));
      assert Tokens(s, d) == if d < |s.ops| then 1 else 0;
    }
    assert Placed(s');
  }

  lemma AgentKeepsTokens(s: State, k: nat, c: ChanId)
    requires Placed(s) && k < |s.agents|
    ensures Tokens(AgentStep(s, k), c) == Tokens(s, c)
  {
    var s' := AgentStep(s, k);
    TotalUpdates(Holds(c), s.agents, k, s'.agents[k]);
    assert s'.agents == s.agents[k := s'.agents[k]];
  }

  lemma AgentKeepsPlaced(s: State, k: nat)
    requires Placed(s) && k < |s.agents|
    ensures Placed(AgentStep(s, k))
  {
  }

  lemma AgentKeepsOwnership(s: State, k: nat)
    requires Ownership(s) && k < |s.agents|
    ensures Ownership(AgentStep(s, k))
  {
    AgentKeepsPlaced(s, k);
    var s' := AgentStep(s, k);
    forall c: nat ensures Tokens(s', c) == if c < |s'.ops| then 1 else 0 {
      AgentKeepsTokens(s, k, c);
      assert Tokens(s, c) == if c < |s.ops| then 1 else 0;
    }
  }

  lemma StepKeepsOwnership(s: State, s': State)
    requires Ownership(s) && Step(s, s')
    ensures Ownership(s')
  {
    if input :| !s.loop.Exited? && s' == LoopStep(s, input) {
      LoopKeepsOwnership(s, input);
    } else if c, ok :| Launched(s, c) && s' == Emit(s, c, ok) {
      EmitKeepsOwnership(s, c, ok);
    } else {
      var k: nat :| k < |s.agents| && s' == AgentStep(s, k);
      AgentKeepsOwnership(s, k);
    }
  }

  /** Channel ownership, over every interleaving: each channel is at any time in exactly one
      place, the table, one goroutine about to close it, or closed; so none is ever closed
      twice, a registration never overwrites another, and nothing is registered once the exit
      sweep is over. */
  lemma {:induction false} RunKeepsOwnership(run: seq<State>, i: nat)
    requires Run(run) && i < |run|
    ensures Ownership(run[i])
    ensures forall c :: run[i].closed[c] <= 1
    ensures run[i].loop.Registering? ==> run[i].loop.id !in run[i].active
    ensures run[i].loop.Exited? ==> run[i].active == map[]
  {
    if i == 0 {
      assert Ownership(run[0]);
    } else {
      RunKeepsOwnership(run, i - 1);
      assert StepAt(run, i);
      StepKeepsOwnership(run[i - 1], run[i]);
    }
    forall c ensures run[i].closed[c] <= 1 {
      assert Tokens(run[i], c) <= 1;
    }
  }

  /** When the connection has exited and every goroutine is done, each channel ever made has
      been closed, exactly once. */
  lemma QuiescentMeansAllClosed(run: seq<State>, i: nat, c: ChanId)
    requires Run(run) && i < |run| && run[i].loop.Exited? && c < |run[i].ops|
    requires forall k :: 0 <= k < |run[i].agents| ==> run[i].agents[k].AgentDone?
    ensures run[i].closed[c] == 1
  {
    RunKeepsOwnership(run, i);
    assert Tokens(run[i], c) == 1;
    TotalIsZero(Holds(c), run[i].agents);
  }

  // ---- whose stream a stop cancels ----

  /** A stop on behalf of stream c takes the channel registered under c's id, if there is one;
      that channel is c's own exactly when no later stream has been given the same id. */
  lemma StopTakesLatest(s: State, k: nat)
    requires Ownership(s) && k < |s.agents| && s.agents[k].Stopping?
    ensures var c := s.agents[k].c; var a := AgentStep(s, k).agents[k];
            && (s.ops[c] !in s.active <==> a == AgentDone)
            && (a.Holding? ==> (a.c == c <==> IsLatest(s.ops, c, s.ops[c])))
  {
    var c := s.agents[k].c;
    if s.ops[c] in s.active {
      assert IsLatest(s.ops, s.active[s.ops[c]], s.ops[c]);
    }
  }

  /** What the connection's goroutine makes of a list of inputs. */
  function Driven(s: State, inputs: seq<Input>): State
    decreases inputs
  {
    if inputs == [] then s else Driven(LoopStep(s, inputs[0]), inputs[1..])
  }

  function Last(run: seq<State>): State
    requires run != []
  {
    run[|run| - 1]
  }

  lemma Extends(run: seq<State>, s: State)
    requires Run(run) && Step(Last(run), s)
    ensures Run(run + [s])
  {
    var longer := run + [s];
    forall j | 0 < j < |longer| ensures StepAt(longer, j) {
      if j < |run| {
        assert StepAt(run, j);
      }
    }
  }

  lemma {:induction false} ExitIsFinal(s: State, inputs: seq<Input>)
    requires s.loop.Exited?
    ensures Driven(s, inputs) == s
    decreases inputs
  {
    if inputs != [] {
      ExitIsFinal(s, inputs[1..]);
    }
  }

  lemma {:induction false} Drive(run: seq<State>, inputs: seq<Input>) returns (longer: seq<State>)
    requires Run(run) && !Driven(Last(run), inputs).loop.Exited?
    ensures Run(longer) && Last(longer) == Driven(Last(run), inputs)
    decreases inputs
  {
    if inputs == [] {
      return run;
    }
    if Last(run).loop.Exited? {
      ExitIsFinal(Last(run), inputs);
    }
    var s := LoopStep(Last(run), inputs[0]);
    Extends(run, s);
    longer := Drive(run + [s], inputs[1..]);
  }

  const SUBSCRIBE_A := Subscribe("a", Streaming)

  const OPENING: seq<Input> := [Receives(ConnectionInit), ReadFails, WriteOk]

  /** From reading to reading: the message, the dispatch, and each step it takes. */
  const SUBSCRIBING: seq<Input> := [Receives(SUBSCRIBE_A), ReadFails, ReadFails, WriteOk, ReadFails, ReadFails]

  const COMPLETING: seq<Input> := [Receives(CompleteMsg("a")), ReadFails, ReadFails, ReadFails]

  lemma OpeningAcknowledges()
    ensures Driven(Initial(), OPENING) == Initial().(loop := Reading, acked := true, frames := [Frame(Ack, true)])
  {
    var s := LoopStep(LoopStep(Initial(), OPENING[0]), OPENING[1]);
    assert s.loop == WritingAck && s.acked;
    assert OPENING[1..][1..] == [WriteOk];
    assert Driven(s, [WriteOk]) == LoopStep(s, WriteOk);
  }

  lemma SubscribingIsDispatched(s: State)
    requires s.loop.Reading? && s.acked
    ensures Driven(s, SUBSCRIBING)
              == Driven(s.(loop := CheckingActive("a", Streaming)), [ReadFails, WriteOk, ReadFails, ReadFails])
  {
    var s1 := LoopStep(s, Receives(SUBSCRIBE_A));
    assert LoopStep(s1, ReadFails) == s.(loop := CheckingActive("a", Streaming));
    assert SUBSCRIBING[1..][1..] == [ReadFails, WriteOk, ReadFails, ReadFails];
  }

  lemma SubscribingIsAccepted(s: State)
    requires s.loop == CheckingActive("a", Streaming) && "a" !in s.active
    ensures Driven(s, [ReadFails, WriteOk, ReadFails, ReadFails])
              == Driven(s.(loop := Registering("a")), [ReadFails, ReadFails])
  {
    var rest := [WriteOk, ReadFails, ReadFails];
    assert [ReadFails, WriteOk, ReadFails, ReadFails][1..] == rest && rest[1..] == [ReadFails, ReadFails];
    var s1 := LoopStep(s, ReadFails);
    assert LoopStep(s1, WriteOk) == s.(loop := Registering("a"));
  }

  lemma SubscribingRegisters(s: State)
    requires s.loop.Reading? && s.acked && "a" !in s.active
    ensures Driven(s, SUBSCRIBING)
         == s.(active := s.active["a" := |s.ops|], ops := s.ops + ["a"], agents := s.agents + [Running(|s.ops|)])
  {
    SubscribingIsDispatched(s);
    SubscribingIsAccepted(s.(loop := CheckingActive("a", Streaming)));
    var s4 := s.(loop := Registering("a"));
    var s5 := LoopStep(s4, ReadFails);
    assert Driven(s4, [ReadFails, ReadFails]) == Driven(s5, [ReadFails]) == LoopStep(s5, ReadFails);
  }

  lemma CompletingCancels(s: State)
    requires s.loop.Reading? && "a" in s.active
    ensures Driven(s, COMPLETING) == s.(active := s.active - {"a"}, closed := s.closed + multiset{s.active["a"]})
  {
    var s1 := LoopStep(s, Receives(CompleteMsg("a")));
    var s2 := LoopStep(s1, ReadFails);
    assert s2 == s.(loop := StoppingOp("a"));
    var s3 := LoopStep(s2, ReadFails);
    assert COMPLETING[1..][1..] == [ReadFails, ReadFails];
    assert Driven(s2, [ReadFails, ReadFails]) == Driven(s3, [ReadFails]) == LoopStep(s3, ReadFails);
  }

  const AFTER_OPENING: State := Initial().(loop := Reading, acked := true, frames := [Frame(Ack, true)])

  const AFTER_ONE: State := AFTER_OPENING.(active := map["a" := 0], ops := ["a"], agents := [Running(0)])

  const AFTER_COMPLETE: State := AFTER_ONE.(active := map[], closed := multiset{0})

  const AFTER_TWO: State :=
    AFTER_COMPLETE.(active := map["a" := 1], ops := ["a", "a"], agents := [Running(0), Running(1)])

  lemma OneStream() returns (run: seq<State>)
    ensures Run(run) && Last(run) == AFTER_ONE
  {
    OpeningAcknowledges();
    run := Drive([Initial()], OPENING);
    SubscribingRegisters(AFTER_OPENING);
    run := Drive(run, SUBSCRIBING);
  }

  lemma FirstStreamEnds()
    ensures Driven(AFTER_ONE, COMPLETING) == AFTER_COMPLETE
  {
    CompletingCancels(AFTER_ONE);
    assert AFTER_ONE.active - {"a"} == map[];
    assert multiset{} + multiset{AFTER_ONE.active["a"]} == multiset{0};
  }

  lemma SecondStreamStarts()
    ensures Driven(AFTER_COMPLETE, SUBSCRIBING) == AFTER_TWO
  {
    SubscribingRegisters(AFTER_COMPLETE);
    assert ["a"] + ["a"] == ["a", "a"];
    assert [Running(0)] + [Running(1)] == [Running(0), Running(1)];
  }

  lemma TwoStreams() returns (run: seq<State>)
    ensures Run(run) && Last(run) == AFTER_TWO
  {
    run := OneStream();
    FirstStreamEnds();
    run := Drive(run, COMPLETING);
    SecondStreamStarts();
    run := Drive(run, SUBSCRIBING);
  }

  /** The other side of the coin: a client that completes "a" and subscribes to "a" again loses
      its second stream when the handler of the first one returns at last. The second channel is
      closed though its own handler still runs, the connection is open and no second complete
      has been received. */
  lemma StaleStopCancelsNewerStream() returns (run: seq<State>)
    ensures Run(run) && Last(run).loop.Reading?
    ensures Last(run).ops == ["a", "a"] && Last(run).agents == [AgentDone, Running(1)]
    ensures Last(run).closed == multiset{0, 1} && Last(run).active == map[]
  {
    run := TwoStreams();
    run := AgentActs(run, 0);
    run := AgentActs(run, 0);
    assert Last(run).agents[0] == Holding(1);
    run := AgentActs(run, 0);
  }

  lemma AgentActs(run: seq<State>, k: nat) returns (longer: seq<State>)
    requires Run(run) && k < |Last(run).agents| && Launchable(Last(run), Last(run).agents[k])
    requires !Last(run).agents[k].AgentDone?
    ensures Run(longer) && Last(longer) == AgentStep(Last(run), k)
  {
    Extends(run, AgentStep(Last(run), k));
    longer := run + [AgentStep(Last(run), k)];
  }

  // ---- the handshake ----

  predicate IsOperationFrame(f: Frame) {
    f.kind.Next? || f.kind.Error? || f.kind.Complete?
  }

  function AckCount(frames: seq<Frame>): nat {
    if frames == [] then 0
    else AckCount(frames[..|frames| - 1]) + if frames[|frames| - 1].kind.Ack? then 1 else 0
  }

  /** Every operation frame comes after a connection_ack that was delivered. */
  predicate AckedFirst(frames: seq<Frame>) {
    forall i :: 0 <= i < |frames| && IsOperationFrame(frames[i]) ==> Frame(Ack, true) in frames[..i]
  }

  /** The loop is between a subscribe that it accepted and the next read. */
  predicate InOperation(l: Loop) {
    match l
    case CheckingActive(_, _) => true
    case Dispatching(_, _) => true
    case WritingError(_) => true
    case Registering(_) => true
    case Launching(_) => true
    case WritingNext(_) => true
    case WritingComplete(_) => true
    case _ => false
  }

  predicate Leaving(l: Loop) {
    l.Sweeping? || l.ClosingAll? || l.Exited?
  }

  ghost predicate Handshake(s: State) {
    && AckCount(s.frames) == (if s.acked && !s.loop.WritingAck? then 1 else 0)
    && (s.loop.WritingAck? ==> s.acked)
    && AckedFirst(s.frames)
    && (s.ops != [] || InOperation(s.loop) ==> Frame(Ack, true) in s.frames)
    && (s.acked && !s.loop.WritingAck? && !Leaving(s.loop) ==> Frame(Ack, true) in s.frames)
  }

  lemma FrameAppends(frames: seq<Frame>, f: Frame)
    requires AckedFirst(frames) && (IsOperationFrame(f) ==> Frame(Ack, true) in frames)
    ensures AckedFirst(frames + [f])
    ensures AckCount(frames + [f]) == AckCount(frames) + if f.kind.Ack? then 1 else 0
    ensures Frame(Ack, true) in frames ==> Frame(Ack, true) in frames + [f]
  {
    var longer := frames + [f];
    assert longer[..|frames|] == frames;
    forall i | 0 <= i < |longer| && IsOperationFrame(longer[i]) ensures Frame(Ack, true) in longer[..i] {
      if i < |frames| {
        assert longer[..i] == frames[..i];
      }
    }
  }

  lemma LoopKeepsHandshake(s: State, input: Input)
    requires Handshake(s)
    ensures Handshake(LoopStep(s, input))
  {
    if Decides(s.loop) {
      DecideKeepsHandshake(s, input);
    } else if Writes(s.loop) {
      WriteKeepsHandshake(s, input);
    } else {
      HandleKeepsHandshake(s, input);
    }
  }

  lemma DecideKeepsHandshake(s: State, input: Input)
    requires Handshake(s) && Decides(s.loop)
    ensures Handshake(Turned(s, Decide(s, input)))
  {
  }

  lemma WriteKeepsHandshake(s: State, input: Input)
    requires Handshake(s) && Writes(s.loop)
    ensures Handshake(LoopStep(s, input))
  {
    if s.loop.WritingAck? {
      AckKeepsHandshake(s, input == WriteOk);
    } else if !(input.Unencodable? && s.loop.WritingNext?) {
      ReplyKeepsHandshake(s, input == WriteOk);
    }
  }

  lemma AckKeepsHandshake(s: State, ok: bool)
    requires Handshake(s) && s.loop.WritingAck?
    ensures Handshake(s.(frames := s.frames + [Frame(Ack, ok)], loop := if ok then Reading else Sweeping))
  {
    FrameAppends(s.frames, Frame(Ack, ok));
    assert Frame(Ack, ok) in s.frames + [Frame(Ack, ok)];
  }

  lemma ReplyKeepsHandshake(s: State, ok: bool)
    requires Handshake(s) && Writes(s.loop) && !s.loop.WritingAck?
    ensures var (kind, next) := Written(s.loop);
            Handshake(s.(frames := s.frames + [Frame(kind, ok)], loop := if ok then next else Sweeping))
  {
    var (kind, next) := Written(s.loop);
    FrameAppends(s.frames, Frame(kind, ok));
    FramesMove(s, s.frames + [Frame(kind, ok)], if ok then next else Sweeping);
  }

  /** Frames may grow by anything but an acknowledgement. */
  lemma FramesMove(s: State, longer: seq<Frame>, l: Loop)
    requires Handshake(s) && !s.loop.WritingAck? && AckedFirst(longer) && AckCount(longer) == AckCount(s.frames)
    requires Frame(Ack, true) in s.frames ==> Frame(Ack, true) in longer
    requires l.Sweeping? || (l.Reading? && !Leaving(s.loop)) || (l.WritingComplete? && s.loop.WritingNext?)
    ensures Handshake(s.(frames := longer, loop := l))
  {
  }

  lemma HandleKeepsHandshake(s: State, input: Input)
    requires Handshake(s) && !Decides(s.loop) && !Writes(s.loop)
    ensures Handshake(Handle(s, input))
  {
  }

  lemma EmitKeepsHandshake(s: State, c: ChanId, ok: bool)
    requires Handshake(s) && c < |s.ops|
    ensures Handshake(Emit(s, c, ok))
  {
    FrameAppends(s.frames, Frame(Next(s.ops[c]), ok));
  }

  lemma StepKeepsHandshake(s: State, s': State)
    requires Handshake(s) && Step(s, s')
    ensures Handshake(s')
  {
    if input :| !s.loop.Exited? && s' == LoopStep(s, input) {
      LoopKeepsHandshake(s, input);
    } else if c, ok :| Launched(s, c) && s' == Emit(s, c, ok) {
      EmitKeepsHandshake(s, c, ok);
    }
  }

  /** Whatever the client sends and however the streams interleave, a connection writes at most
      one connection_ack, and no next, error or complete frame comes before a delivered one. */
  lemma {:induction false} AckOnceAndFirst(run: seq<State>, i: nat)
    requires Run(run) && i < |run|
    ensures AckCount(run[i].frames) <= 1 && AckedFirst(run[i].frames) && Handshake(run[i])
  {
    if i > 0 {
      AckOnceAndFirst(run, i - 1);
      assert StepAt(run, i);
      StepKeepsHandshake(run[i - 1], run[i]);
    }
  }

  // ---- refusals ----

  /** How a close code fits what the connection has been through. */
  ghost predicate RefusalFits(s: State) {
    && (s.closeCode.Some? ==> Leaving(s.loop))
    && (s.loop.FirstRead? ==> !s.acked && s.frames == [] && s.ops == [])
    && (InOperation(s.loop) ==> s.acked)
    && match s.closeCode
       case None => true
       case Some(code) =>
         if code == 4408 then !s.acked && s.frames == [] && s.ops == []
         else if code == 4401 then !s.acked
         else if code == 4429 || code == 4409 then s.acked
         else code == 4400
  }

  lemma DecideKeepsRefusal(s: State, input: Input)
    requires RefusalFits(s) && Decides(s.loop)
    ensures RefusalFits(Turned(s, Decide(s, input)))
  {
  }

  lemma WriteKeepsRefusal(s: State, input: Input)
    requires RefusalFits(s) && Writes(s.loop)
    ensures RefusalFits(LoopStep(s, input))
  {
  }

  lemma HandleKeepsRefusal(s: State, input: Input)
    requires RefusalFits(s) && !Decides(s.loop) && !Writes(s.loop)
    ensures RefusalFits(Handle(s, input))
  {
  }

  lemma StepKeepsRefusal(s: State, s': State)
    requires RefusalFits(s) && Step(s, s')
    ensures RefusalFits(s')
  {
    if input :| !s.loop.Exited? && s' == LoopStep(s, input) {
      if Decides(s.loop) {
        DecideKeepsRefusal(s, input);
      } else if Writes(s.loop) {
        WriteKeepsRefusal(s, input);
      } else {
        HandleKeepsRefusal(s, input);
      }
    }
  }

  lemma {:induction false} RunKeepsRefusal(run: seq<State>, i: nat)
    requires Run(run) && i < |run|
    ensures RefusalFits(run[i])
  {
    if i > 0 {
      RunKeepsRefusal(run, i - 1);
      assert StepAt(run, i);
      StepKeepsRefusal(run[i - 1], run[i]);
    }
  }

  /** A connection is closed by the server with one of five codes, and each fits the frames on the
      wire: an initialisation timeout comes before any frame, "unauthorized" only where no
      acknowledgement was written, "too many initialisation requests" and "subscriber already
      exists" only where exactly one was. */
  lemma RefusalsFitTheWire(run: seq<State>, i: nat)
    requires Run(run) && i < |run| && run[i].closeCode.Some?
    ensures var s := run[i]; var code := s.closeCode.value;
            && code in {4400, 4401, 4408, 4409, 4429}
            && (code == 4408 ==> s.frames == [])
            && (code == 4401 ==> AckCount(s.frames) == 0)
            && (code == 4409 || code == 4429 ==> AckCount(s.frames) == 1)
  {
    RunKeepsRefusal(run, i);
    AckOnceAndFirst(run, i);
  }
}
