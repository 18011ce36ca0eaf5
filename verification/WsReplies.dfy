// internal/graphql/ws_protocol.go: what a graphql-transport-ws connection answers to each message,
// while streams and stops of other operations go on.
module WsReplies {
  import opened Graphs
  import opened Channels
  import opened WsProtocol

  /** A step of the connection, by whoever takes it. */
  datatype Act = LoopAct(input: Input) | EmitAct(c: ChanId, ok: bool) | AgentAct(k: nat)

  predicate Possible(s: State, a: Act) {
    match a
    case LoopAct(_) => !s.loop.Exited?
    case EmitAct(c, _) => Launched(s, c)
    case AgentAct(k) => k < |s.agents| && Launchable(s, s.agents[k]) && !s.agents[k].AgentDone?
  }

  function Perform(s: State, a: Act): State
    requires Possible(s, a)
  {
    match a
    case LoopAct(input) => LoopStep(s, input)
    case EmitAct(c, ok) => Emit(s, c, ok)
    case AgentAct(k) => AgentStep(s, k)
  }

  /** The acts are the steps of the connection's runs. */
  lemma ActsAreSteps(s: State, s': State)
    ensures Step(s, s') <==> exists a :: Possible(s, a) && s' == Perform(s, a)
  {
    if input :| !s.loop.Exited? && s' == LoopStep(s, input) {
      assert Possible(s, LoopAct(input)) && s' == Perform(s, LoopAct(input));
    }
    if c, ok :| Launched(s, c) && s' == Emit(s, c, ok) {
      assert Possible(s, EmitAct(c, ok)) && s' == Perform(s, EmitAct(c, ok));
    }
    if k: nat :| k < |s.agents| && Launchable(s, s.agents[k]) && !s.agents[k].AgentDone? && s' == AgentStep(s, k) {
      assert Possible(s, AgentAct(k)) && s' == Perform(s, AgentAct(k));
    }
    if a :| Possible(s, a) && s' == Perform(s, a) {
      match a
      case LoopAct(input) =>
      case EmitAct(c, ok) =>
      case AgentAct(k) =>
    }
  }

  /** The connection waits for a message, or is on its way out. */
  predicate AtRest(l: Loop) {
    l.FirstRead? || l.Reading? || Leaving(l)
  }

  /** Every write succeeds, but for a result that cannot be encoded, and nothing panics. */
  predicate GoesWell(l: Loop, input: Input) {
    && (Writes(l) ==> input.WriteOk? || (input.Unencodable? && l.WritingNext?))
    && (input.Unencodable? ==> l.WritingNext?) && input != Panics
  }

  /** The acts from the moment a message was read until the loop rests again, others in between. */
  predicate Round(s: State, acts: seq<Act>)
    decreases acts
  {
    if AtRest(s.loop) then acts == []
    else
      && acts != [] && Possible(s, acts[0]) && (acts[0].LoopAct? ==> GoesWell(s.loop, acts[0].input))
      && Round(Perform(s, acts[0]), acts[1..])
  }

  function After(s: State, acts: seq<Act>): State
    requires Round(s, acts)
    decreases acts
  {
    if acts == [] then s else After(Perform(s, acts[0]), acts[1..])
  }

  /** The frames that the loop itself writes, in order, those of the streams left out. */
  function LoopFrames(s: State, acts: seq<Act>): seq<Frame>
    requires Round(s, acts)
    decreases acts
  {
    if acts == [] then []
    else
      var s' := Perform(s, acts[0]);
      (if acts[0].LoopAct? && |s'.frames| > |s.frames| then s'.frames[|s.frames|..] else []) + LoopFrames(s', acts[1..])
  }

  predicate Unencoded(acts: seq<Act>) {
    LoopAct(Unencodable) in acts
  }

  predicate Undisturbed(acts: seq<Act>) {
    forall a :: a in acts ==> !a.AgentAct?
  }

  function Sent(kinds: seq<FrameKind>): seq<Frame> {
    if kinds == [] then [] else [Frame(kinds[0], true)] + Sent(kinds[1..])
  }

  /** The answer ends with reading on. */
  predicate ReadsOn(s: State, acts: seq<Act>, kinds: seq<FrameKind>)
    requires Round(s, acts)
  {
    After(s, acts).loop.Reading? && After(s, acts).closeCode == s.closeCode && LoopFrames(s, acts) == Sent(kinds)
  }

  /** The answer ends with closing the connection. */
  predicate Refuses(s: State, acts: seq<Act>, code: nat)
    requires Round(s, acts)
  {
    After(s, acts).loop.Sweeping? && After(s, acts).closeCode == Some(code) && LoopFrames(s, acts) == []
  }

  /** A stream for the id has been made and started, the last goroutine of all. */
  predicate Streams(s: State, acts: seq<Act>, id: OpId)
    requires Round(s, acts)
  {
    var s' := After(s, acts);
    s'.ops == s.ops + [id] && s'.agents != [] && s'.agents[|s'.agents| - 1] == Running(|s.ops|)
  }

  // ---- one act at a time ----

  lemma RoundUnfolds(s: State, acts: seq<Act>)
    requires Round(s, acts) && !AtRest(s.loop)
    ensures var s', rest := Perform(s, acts[0]), acts[1..];
            && Round(s', rest) && After(s, acts) == After(s', rest)
            && (!acts[0].LoopAct? || s'.frames == s.frames ==> LoopFrames(s, acts) == LoopFrames(s', rest))
  {
    var s', rest := Perform(s, acts[0]), acts[1..];
    assert [] + LoopFrames(s', rest) == LoopFrames(s', rest);
  }

  /** The streams neither move the loop nor answer for it; they can only take operations away. */
  lemma OthersAct(s: State, a: Act)
    requires Possible(s, a) && !a.LoopAct?
    ensures var s' := Perform(s, a);
            && s'.loop == s.loop && s'.acked == s.acked && s'.closeCode == s.closeCode && s'.ops == s.ops
            && s'.active.Keys <= s.active.Keys && (a.EmitAct? ==> s'.active == s.active)
  {
  }

  lemma RestOfActs(acts: seq<Act>)
    requires acts != []
    ensures Unencoded(acts) <==> acts[0] == LoopAct(Unencodable) || Unencoded(acts[1..])
    ensures Undisturbed(acts) <==> !acts[0].AgentAct? && Undisturbed(acts[1..])
  {
    assert acts == [acts[0]] + acts[1..];
  }

  lemma RoundGoesOn(s: State, acts: seq<Act>)
    requires Round(s, acts) && !AtRest(s.loop)
    ensures var s', rest := Perform(s, acts[0]), acts[1..];
            && Round(s', rest) && After(s, acts) == After(s', rest)
            && (!acts[0].LoopAct? ==>
                  LoopFrames(s, acts) == LoopFrames(s', rest) && s'.loop == s.loop && s'.acked == s.acked
                  && s'.closeCode == s.closeCode && s'.ops == s.ops && s'.active.Keys <= s.active.Keys
                  && (acts[0].EmitAct? ==> s'.active == s.active))
            && (acts[0].LoopAct? && s'.frames == s.frames ==> LoopFrames(s, acts) == LoopFrames(s', rest))
            && (Unencoded(acts) <==> acts[0] == LoopAct(Unencodable) || Unencoded(rest))
            && (Undisturbed(acts) <==> !acts[0].AgentAct? && Undisturbed(rest))
  {
    RoundUnfolds(s, acts);
    RestOfActs(acts);
    if !acts[0].LoopAct? {
      OthersAct(s, acts[0]);
    }
  }

  lemma WriteGoesOn(s: State, acts: seq<Act>, kind: FrameKind, next: Loop)
    requires Round(s, acts) && Writes(s.loop) && acts[0] == LoopAct(WriteOk)
    requires LoopStep(s, WriteOk) == s.(frames := s.frames + [Frame(kind, true)], loop := next)
    ensures LoopFrames(s, acts) == [Frame(kind, true)] + LoopFrames(Perform(s, acts[0]), acts[1..])
  {
    assert (s.frames + [Frame(kind, true)])[|s.frames|..] == [Frame(kind, true)];
  }

  lemma {:induction false} RestingRound(s: State, acts: seq<Act>)
    requires Round(s, acts) && AtRest(s.loop)
    ensures acts == [] && After(s, acts) == s && LoopFrames(s, acts) == []
  {
  }

  // ---- the writes ----

  /** A single frame, and back to reading. */
  lemma {:induction false} SingleWrite(s: State, acts: seq<Act>, kind: FrameKind)
    requires Round(s, acts)
    requires Writes(s.loop) && !s.loop.WritingNext?
    requires match s.loop
             case WritingPong => kind == Pong
             case WritingAck => kind == Ack
             case WritingError(id) => kind == Error(id)
             case WritingComplete(id) => kind == Complete(id)
    ensures ReadsOn(s, acts, [kind]) && After(s, acts).acked == s.acked && !Unencoded(acts)
    decreases acts
  {
    RoundGoesOn(s, acts);
    var s' := Perform(s, acts[0]);
    if acts[0].LoopAct? {
      WriteGoesOn(s, acts, kind, Reading);
      RestingRound(s', acts[1..]);
    } else {
      SingleWrite(s', acts[1..], kind);
    }
  }

  /** The result and its completion; a result that cannot be encoded is completed all the same. */
  lemma {:induction false} ResultWrite(s: State, acts: seq<Act>)
    requires Round(s, acts) && s.loop.WritingNext?
    ensures ReadsOn(s, acts, if Unencoded(acts) then [Complete(s.loop.id)] else [Next(s.loop.id), Complete(s.loop.id)])
    ensures After(s, acts).acked == s.acked
    decreases acts
  {
    var id := s.loop.id;
    RoundGoesOn(s, acts);
    var s' := Perform(s, acts[0]);
    if acts[0].LoopAct? {
      SingleWrite(s', acts[1..], Complete(id));
      if acts[0].input.WriteOk? {
        WriteGoesOn(s, acts, Next(id), WritingComplete(id));
      }
    } else {
      ResultWrite(s', acts[1..]);
    }
  }

  lemma {:induction false} LaunchRound(s: State, acts: seq<Act>)
    requires Round(s, acts) && s.loop.Launching?
    ensures ReadsOn(s, acts, []) && After(s, acts).acked == s.acked && After(s, acts).ops == s.ops
    ensures After(s, acts).agents != [] && After(s, acts).agents[|After(s, acts).agents| - 1] == Running(s.loop.c)
    decreases acts
  {
    RoundGoesOn(s, acts);
    var s' := Perform(s, acts[0]);
    if acts[0].LoopAct? {
      RestingRound(s', acts[1..]);
    } else {
      LaunchRound(s', acts[1..]);
    }
  }

  lemma RegisterStep(s: State, acts: seq<Act>)
    requires Round(s, acts) && s.loop.Registering? && acts[0].LoopAct?
    ensures var s' := Perform(s, acts[0]);
            && s'.loop == Launching(|s.ops|) && s'.ops == s.ops + [s.loop.id] && s'.frames == s.frames
            && s'.acked == s.acked && s'.closeCode == s.closeCode
  {
  }

  lemma StreamsEarlier(s: State, acts: seq<Act>, id: OpId)
    requires Round(s, acts) && !AtRest(s.loop) && Round(Perform(s, acts[0]), acts[1..])
    requires Streams(Perform(s, acts[0]), acts[1..], id) && Perform(s, acts[0]).ops == s.ops
    ensures Streams(s, acts, id)
  {
  }

  lemma {:induction false} RegisterRound(s: State, acts: seq<Act>)
    requires Round(s, acts) && s.loop.Registering?
    ensures ReadsOn(s, acts, []) && After(s, acts).acked == s.acked && Streams(s, acts, s.loop.id)
    decreases acts
  {
    RoundGoesOn(s, acts);
    if acts[0].LoopAct? {
      RegisterStep(s, acts);
      LaunchRound(Perform(s, acts[0]), acts[1..]);
    } else {
      RegisterRound(Perform(s, acts[0]), acts[1..]);
      StreamsEarlier(s, acts, s.loop.id);
    }
  }

  lemma {:induction false} StopRound(s: State, acts: seq<Act>)
    requires Round(s, acts) && (s.loop.StoppingOp? || s.loop.ClosingOp?)
    ensures ReadsOn(s, acts, []) && After(s, acts).acked == s.acked && After(s, acts).ops == s.ops
    decreases acts
  {
    RoundGoesOn(s, acts);
    var s' := Perform(s, acts[0]);
    if AtRest(s'.loop) {
      RestingRound(s', acts[1..]);
    } else {
      StopRound(s', acts[1..]);
    }
  }

  // ---- the decisions ----

  /** How an accepted operation is answered. */
  predicate Answers(s: State, acts: seq<Act>, id: OpId, payload: Payload)
    requires Round(s, acts)
  {
    match payload
    case BadPayload => ReadsOn(s, acts, [Error(id)])
    case BadQuery => ReadsOn(s, acts, [Error(id)])
    case Streaming => ReadsOn(s, acts, []) && Streams(s, acts, id)
    case SingleResult => ReadsOn(s, acts, if Unencoded(acts) then [Complete(id)] else [Next(id), Complete(id)])
  }

  lemma AnswersEarlier(s: State, acts: seq<Act>, id: OpId, payload: Payload)
    requires Round(s, acts) && !AtRest(s.loop) && Round(Perform(s, acts[0]), acts[1..])
    requires Answers(Perform(s, acts[0]), acts[1..], id, payload)
    requires Perform(s, acts[0]).ops == s.ops && Perform(s, acts[0]).closeCode == s.closeCode
    requires LoopFrames(s, acts) == LoopFrames(Perform(s, acts[0]), acts[1..])
    requires Unencoded(acts) <==> Unencoded(acts[1..])
    ensures Answers(s, acts, id, payload)
  {
  }

  lemma {:induction false} DispatchRound(s: State, acts: seq<Act>)
    requires Round(s, acts) && s.loop.Dispatching?
    ensures Answers(s, acts, s.loop.id, s.loop.payload) && After(s, acts).acked == s.acked
    decreases acts
  {
    var id, payload := s.loop.id, s.loop.payload;
    RoundGoesOn(s, acts);
    var s', rest := Perform(s, acts[0]), acts[1..];
    if acts[0].LoopAct? {
      match payload
      case BadPayload => SingleWrite(s', rest, Error(id));
      case BadQuery => SingleWrite(s', rest, Error(id));
      case Streaming => RegisterRound(s', rest);
      case SingleResult => ResultWrite(s', rest);
    } else {
      DispatchRound(s', rest);
    }
    AnswersEarlier(s, acts, id, payload);
  }

  /** The connection is closed only if the id was active, and then for certain unless a goroutine of
      some stream has taken a step since. */
  lemma {:induction false} CheckRound(s: State, acts: seq<Act>)
    requires Round(s, acts) && s.loop.CheckingActive?
    ensures After(s, acts).acked == s.acked
    ensures if Refuses(s, acts, 4409) then s.loop.id in s.active
            else Answers(s, acts, s.loop.id, s.loop.payload) && (s.loop.id in s.active ==> !Undisturbed(acts))
    decreases acts
  {
    var id, payload := s.loop.id, s.loop.payload;
    RoundGoesOn(s, acts);
    var s', rest := Perform(s, acts[0]), acts[1..];
    if acts[0].LoopAct? {
      if id in s.active {
        RestingRound(s', rest);
      } else {
        DispatchRound(s', rest);
        AnswersEarlier(s, acts, id, payload);
        AnswersAreNoRefusal(s, acts, id, payload);
      }
    } else {
      CheckRound(s', rest);
      if !Refuses(s', rest, 4409) {
        AnswersEarlier(s, acts, id, payload);
      }
    }
  }

  lemma AnswersAreNoRefusal(s: State, acts: seq<Act>, id: OpId, payload: Payload)
    requires Round(s, acts) && Answers(s, acts, id, payload)
    ensures !Refuses(s, acts, 4409)
  {
  }

  /** What the loop makes of a message, whatever the streams do meanwhile, if every write succeeds:
      one acknowledgement for the first init, one pong for a ping, nothing for a complete; a frame
      that is no message, or no known one, closes with 4400, a second init with 4429, an operation
      before the acknowledgement with 4401, and one under an active id with 4409. An accepted
      operation gets one error frame if it is malformed, its result and a completion if it is a
      query, the completion alone if the result cannot be encoded, and no frame but a stream of its
      own if it is a subscription. */
  predicate Replied(t: State, m: Message, acts: seq<Act>)
    requires Round(t, acts)
  {
    match m
    case BadJson => Refuses(t, acts, 4400)
    case Unknown => Refuses(t, acts, 4400)
    case Ping => ReadsOn(t, acts, [Pong])
    case ConnectionInit => if t.acked then Refuses(t, acts, 4429) else ReadsOn(t, acts, [Ack]) && After(t, acts).acked
    case CompleteMsg(_) => ReadsOn(t, acts, [])
    case Subscribe(id, payload) =>
      if !t.acked then Refuses(t, acts, 4401)
      else if Refuses(t, acts, 4409) then id in t.active
      else Answers(t, acts, id, payload) && (id in t.active ==> !Undisturbed(acts))
  }

  lemma {:induction false} HandleRound(t: State, m: Message, acts: seq<Act>)
    requires t.loop == Handling(m) && Round(t, acts)
    ensures Replied(t, m, acts)
    decreases acts
  {
    RoundGoesOn(t, acts);
    var t', rest := Perform(t, acts[0]), acts[1..];
    if acts[0].LoopAct? {
      match m
      case Ping => SingleWrite(t', rest, Pong);
      case ConnectionInit => if t.acked { RestingRound(t', rest); } else { SingleWrite(t', rest, Ack); }
      case CompleteMsg(_) => StopRound(t', rest);
      case Subscribe(id, payload) =>
        if t.acked {
          CheckRound(t', rest);
          if !Refuses(t', rest, 4409) {
            AnswersEarlier(t, acts, id, payload);
          }
        } else {
          RestingRound(t', rest);
        }
      case _ => RestingRound(t', rest);
    } else {
      HandleRound(t', m, rest);
      if m.Subscribe? && t.acked && !Refuses(t', rest, 4409) {
        AnswersEarlier(t, acts, m.id, m.payload);
      }
    }
  }

  /** Every message that is read is answered so, whatever the streams do meanwhile. */
  lemma ReplyTo(s: State, m: Message, acts: seq<Act>)
    requires (s.loop.Reading? || s.loop.FirstRead?) && Round(LoopStep(s, Receives(m)), acts)
    ensures Replied(LoopStep(s, Receives(m)), m, acts)
  {
    HandleRound(LoopStep(s, Receives(m)), m, acts);
  }

  /** How many steps of the loop are left at most before it rests. */
  function StepsLeft(l: Loop): nat {
    match l
    case Handling(_) => 5
    case CheckingActive(_, _) => 4
    case Dispatching(_, _) => 3
    case Registering(_) => 2
    case WritingNext(_) => 2
    case StoppingOp(_) => 2
    case _ => if AtRest(l) then 0 else 1
  }

  /** The answer of a loop that is left alone: it is never stuck, and rests after five steps at most. */
  lemma {:induction false} AnswerComes(s: State) returns (acts: seq<Act>)
    ensures Round(s, acts) && Undisturbed(acts) && !Unencoded(acts) && |acts| <= StepsLeft(s.loop)
    decreases StepsLeft(s.loop)
  {
    if AtRest(s.loop) {
      acts := [];
    } else {
      var rest := AnswerComes(LoopStep(s, WriteOk));
      acts := [LoopAct(WriteOk)] + rest;
      assert acts[1..] == rest;
      RoundGoesOn(s, acts);
    }
  }

  /** Where no message is read, the connection ends without a frame: with 4408 if the first one did
      not come in time, otherwise with no code of its own. */
  lemma EndOfReading(s: State, input: Input)
    requires (s.loop.FirstRead? || s.loop.Reading?) && !input.Receives?
    ensures var s' := LoopStep(s, input);
            && s'.loop.Sweeping? && s'.frames == s.frames && s'.active == s.active
            && s'.closeCode == if s.loop.FirstRead? && input.TimesOut? then Some(4408) else s.closeCode
  {
  }

  /** A write that fails ends the connection's work: no close code, and no frame after it. */
  lemma FailedWriteEnds(s: State, input: Input)
    requires Writes(s.loop) && !input.WriteOk? && !(input.Unencodable? && s.loop.WritingNext?)
    ensures var s' := LoopStep(s, input);
            s'.loop.Sweeping? && s'.closeCode == s.closeCode && |s'.frames| == |s.frames| + 1
                && !s'.frames[|s.frames|].ok
  {
  }

  lemma {:induction false} LeavingWritesNothing(s: State, inputs: seq<Input>)
    requires Leaving(s.loop)
    ensures Leaving(Driven(s, inputs).loop) && Driven(s, inputs).frames == s.frames
    decreases inputs
  {
    if inputs != [] {
      LeavingWritesNothing(LoopStep(s, inputs[0]), inputs[1..]);
    }
  }
}
