// internal/resolver/stage3.go: the concurrent resolution stage as a step system. One task runs
// per provider, and one more per recorded injection of a transient provider. Closing a done
// channel, returning from the goroutine, and the error group's reaction are separate steps.
module Stage3 {
  import opened Graphs
  import opened Modules
  import opened Resolver

  /** What a constructor call, an eager call before this stage, or an override produced. */
  datatype Value = Made(p: Provider, call: nat) | Eager(p: Provider) | Substitute(typ: Type, id: nat)

  function TypeOf(v: Value): Type {
    if v.Substitute? then v.typ else v.p.ResolvedType()
  }

  datatype Task = NodeTask(p: Provider) | EdgeTask(e: nat)

  /** A placeholder of a single-value injection, or one slot of an injected slice. */
  datatype Cell = Placeholder(e: nat) | Slot(s: nat)

  datatype SlotRef = SlotRef(owner: Owner, iface: Type, member: Provider)

  datatype Config = Config(
    nodes: seq<Provider>,
    graph: Graph<Provider>,
    tasks: seq<Task>,
    edgeOwner: seq<Owner>,
    targets: seq<Provider>,
    slots: seq<SlotRef>,
    eager: map<Provider, Value>,
    overrides: map<Provider, Value>,
    assignable: set<(Type, Type)>)

  datatype Result = Done(v: Option<Value>) | Bad

  datatype Phase =
    | Waiting(i: nat)
    | Resolving
    | Constructing(call: nat)
    | Writing(v: Value, w: nat)
    | Closing(r: Result)
    | Returning(r: Result)
    | Finished(r: Result)

  /** What the goroutines share. */
  datatype Shared = Shared(
    closes: map<Provider, nat>,
    cancelled: bool,
    cells: map<Cell, seq<Value>>,
    log: seq<Task>,
    resolved: map<Provider, Value>)

  datatype State = State(phase: seq<Phase>, sh: Shared)

  predicate IsTransient(p: Provider) {
    p.Concrete? && p.scope.Transient?
  }

  function Subject(c: Config, t: Task): Provider
    requires t.EdgeTask? ==> t.e < |c.targets|
  {
    if t.NodeTask? then t.p else c.targets[t.e]
  }

  /** The done channels a task waits for, in order. */
  function Waits(c: Config, t: Task): seq<Provider>
    requires t.EdgeTask? ==> t.e < |c.targets|
  {
    if t.NodeTask? then Deps(c.graph, t.p) else [c.targets[t.e]]
  }

  function PlaceholdersFor(c: Config, p: Provider, from: nat): (r: seq<Cell>)
    requires from <= |c.targets|
    ensures forall x :: x in r <==> x.Placeholder? && from <= x.e < |c.targets| && c.targets[x.e] == p
    ensures NoDup(r)
    decreases |c.targets| - from
  {
    if from == |c.targets| then []
    else (if c.targets[from] == p then [Placeholder(from)] else []) + PlaceholdersFor(c, p, from + 1)
  }

  function SlotsFor(c: Config, p: Provider, from: nat): (r: seq<Cell>)
    requires from <= |c.slots|
    ensures forall x :: x in r <==> x.Slot? && from <= x.s < |c.slots| && c.slots[x.s].member == p
    ensures NoDup(r)
    decreases |c.slots| - from
  {
    if from == |c.slots| then []
    else (if c.slots[from].member == p then [Slot(from)] else []) + SlotsFor(c, p, from + 1)
  }

  /** The cells that a task fills in once it holds a value. */
  function Cells(c: Config, t: Task): (r: seq<Cell>)
    ensures NoDup(r)
    ensures forall x :: x in r <==>
              if t.EdgeTask? then x == Placeholder(t.e)
              else if IsTransient(t.p) then false
              else if x.Placeholder? then x.e < |c.targets| && c.targets[x.e] == t.p
              else x.s < |c.slots| && c.slots[x.s].member == t.p
  {
    if t.EdgeTask? then [Placeholder(t.e)]
    else if IsTransient(t.p) then []
    else
      var holders, slots := PlaceholdersFor(c, t.p, 0), SlotsFor(c, t.p, 0);
      assert forall i, j :: 0 <= i < |holders| && 0 <= j < |slots| ==> holders[i] in holders && slots[j] in slots;
      holders + slots
  }

  /** A placeholder takes a value of its own type only, a slot any assignable one. */
  predicate Accepts(c: Config, x: Cell, v: Value) {
    match x
    case Placeholder(e) => e < |c.targets| && TypeOf(v) == c.targets[e].ResolvedType()
    case Slot(s) => s < |c.slots| && Assignable(c.assignable, TypeOf(v), c.slots[s].iface)
  }

  /** What graph construction, the scope filter and cycle detection establish. */
  ghost predicate WellFormed(c: Config, order: seq<Provider>) {
    && NoDup(c.nodes) && NoDup(c.tasks)
    && (forall p :: NodeTask(p) in c.tasks <==> p in c.nodes)
    && (forall e: nat :: EdgeTask(e) in c.tasks <==> e < |c.targets| && IsTransient(c.targets[e]))
    && |c.edgeOwner| == |c.targets| && (forall e :: 0 <= e < |c.targets| ==> c.targets[e] in c.nodes)
    && (forall u, v :: u in c.nodes && v in Deps(c.graph, u) ==> v in c.nodes)
    && (forall e :: 0 <= e < |c.targets| && c.edgeOwner[e].ProviderOwner? && c.edgeOwner[e].p in c.nodes ==>
          c.targets[e] in Deps(c.graph, c.edgeOwner[e].p))
    && (forall s ::
          && 0 <= s < |c.slots| && c.slots[s].owner.ProviderOwner?
          && c.slots[s].owner.p in c.nodes && c.slots[s].member in c.nodes
          ==> c.slots[s].member in Deps(c.graph, c.slots[s].owner.p))
    && (forall p :: p in c.eager ==> c.eager[p] == Eager(p))
    && Topological(c.graph, order) && c.graph.Keys <= Elems(order)
  }

  // ---- the steps ----

  /** How a step resolves a race between two ready channels, and whether a constructor fails. */
  datatype Choice = Choice(takeCancel: bool, fails: bool)

  /** The edge that a task serves exists and targets a transient provider. */
  predicate TaskKnown(c: Config, t: Task) {
    t.EdgeTask? ==> t.e < |c.targets| && IsTransient(c.targets[t.e])
  }

  /** A task is blocked only while it waits for a channel that nobody has closed. */
  predicate CanAct(c: Config, sh: Shared, t: Task, ph: Phase)
    requires TaskKnown(c, t)
  {
    match ph
    case Finished(_) => false
    case Waiting(i) =>
      var ws := Waits(c, t);
      i < |ws| ==> ws[i] !in sh.closes || sh.closes[ws[i]] > 0 || sh.cancelled
    case _ => true
  }

  /** A provider's goroutine closes its channel on every exit; an edge's goroutine has none. */
  function Leave(t: Task, r: Result): Phase {
    if t.NodeTask? then Closing(r) else Returning(r)
  }

  function Wait(c: Config, sh: Shared, t: Task, i: nat, ch: Choice): Phase
    requires TaskKnown(c, t)
  {
    var ws := Waits(c, t);
    if i < |ws| then
      if ws[i] !in sh.closes then Waiting(i + 1)
      else if sh.closes[ws[i]] > 0 && !(sh.cancelled && ch.takeCancel) then Waiting(i + 1)
      else Leave(t, Bad)
    else if t.EdgeTask? then Resolving
    else if sh.cancelled then Closing(Bad)
    else if IsTransient(t.p) then Closing(Done(None))
    else Resolving
  }

  /** An override or an eager value is used directly; otherwise the constructor is called. */
  function Begin(c: Config, sh: Shared, t: Task): (Phase, Shared)
    requires TaskKnown(c, t)
  {
    var p := Subject(c, t);
    if p in c.overrides then (Writing(c.overrides[p], 0), sh.(resolved := sh.resolved[p := c.overrides[p]]))
    else if t.NodeTask? && p in c.eager then (Writing(c.eager[p], 0), sh.(resolved := sh.resolved[p := c.eager[p]]))
    else (Constructing(|sh.log|), sh.(log := sh.log + [t]))
  }

  function History(sh: Shared, x: Cell): seq<Value> {
    if x in sh.cells then sh.cells[x] else []
  }

  function Write(c: Config, sh: Shared, x: Cell, v: Value): Shared {
    if Accepts(c, x, v) then sh.(cells := sh.cells[x := History(sh, x) + [v]]) else sh
  }

  /** One step of a task's goroutine. */
  function Act(c: Config, sh: Shared, t: Task, ph: Phase, ch: Choice): (Phase, Shared)
    requires TaskKnown(c, t)
  {
    var p := Subject(c, t);
    match ph
    case Waiting(i) => (Wait(c, sh, t, i, ch), sh)
    case Resolving => Begin(c, sh, t)
    case Constructing(call) =>
      if ch.fails then (Leave(t, Bad), sh)
      else (Writing(Made(p, call), 0), sh.(resolved := sh.resolved[p := Made(p, call)]))
    case Writing(v, w) =>
      if w < |Cells(c, t)| then (Writing(v, w + 1), Write(c, sh, Cells(c, t)[w], v))
      else (Leave(t, Done(Some(v))), sh)
    case Closing(r) =>
      (Returning(r), sh.(closes := sh.closes[p := (if p in sh.closes then sh.closes[p] else 0) + 1]))
    case Returning(r) => (Finished(r), sh.(cancelled := sh.cancelled || r.Bad?))
    case Finished(_) => (ph, sh)
  }

  ghost predicate Enabled(c: Config, s: State, k: nat) {
    k < |c.tasks| == |s.phase| && TaskKnown(c, c.tasks[k]) && CanAct(c, s.sh, c.tasks[k], s.phase[k])
  }

  function Advance(c: Config, s: State, k: nat, ch: Choice): State
    requires Enabled(c, s, k)
  {
    var (ph, sh) := Act(c, s.sh, c.tasks[k], s.phase[k], ch);
    State(s.phase[k := ph], sh)
  }

  ghost function Init(c: Config): State {
    State(seq(|c.tasks|, _ => Waiting(0)), Shared(map p | p in c.nodes :: 0, false, map[], [], map[]))
  }

  /** A task moves, or the surrounding context is cancelled, as a bootstrap timeout does. */
  ghost predicate Next(c: Config, s: State, s': State) {
    || (exists k: nat, ch :: Enabled(c, s, k) && s' == Advance(c, s, k, ch))
    || (!s.sh.cancelled && s' == s.(sh := s.sh.(cancelled := true)))
  }

  ghost predicate Run(c: Config, run: seq<State>) {
    && run != [] && run[0] == Init(c)
    && forall j :: 0 < j < |run| ==> NextAt(c, run, j)
  }

  ghost predicate NextAt(c: Config, run: seq<State>, j: nat)
    requires 0 < j < |run|
  {
    Next(c, run[j - 1], run[j])
  }

  // ---- the invariant, task by task ----

  function PhaseResult(ph: Phase): Option<Result> {
    match ph
    case Closing(r) => Some(r)
    case Returning(r) => Some(r)
    case Finished(r) => Some(r)
    case _ => None
  }

  function PhaseValue(ph: Phase): Option<Value> {
    if ph.Writing? then Some(ph.v)
    else match PhaseResult(ph)
         case Some(Done(v)) => v
         case _ => None
  }

  predicate Failed(ph: Phase) {
    PhaseResult(ph) == Some(Bad)
  }

  ghost predicate AllClosed(sh: Shared, ws: seq<Provider>) {
    forall w :: w in ws && w in sh.closes ==> sh.closes[w] > 0
  }

  /** What a task has waited for by now. */
  ghost predicate WaitedFor(c: Config, sh: Shared, t: Task, ph: Phase)
    requires TaskKnown(c, t)
  {
    && (ph.Waiting? ==> ph.i <= |Waits(c, t)| && AllClosed(sh, Waits(c, t)[..ph.i]))
    && (!ph.Waiting? && !Failed(ph) ==> AllClosed(sh, Waits(c, t)))
  }

  /** Which phases a task of its kind can be in. */
  predicate PhaseFits(t: Task, ph: Phase) {
    && (ph.Closing? ==> t.NodeTask?)
    && (if t.NodeTask? && IsTransient(t.p)
        then ph.Waiting? || (PhaseResult(ph).Some? && PhaseValue(ph).None?)
        else PhaseResult(ph).Some? && !Failed(ph) ==> PhaseValue(ph).Some?)
  }

  /** The channel of a provider is closed once its goroutine has run its deferred close. */
  ghost predicate ClosedOnce(sh: Shared, t: Task, ph: Phase) {
    t.NodeTask? ==> t.p in sh.closes && sh.closes[t.p] == if ph.Returning? || ph.Finished? then 1 else 0
  }

  /** How many of its cells a task has passed. */
  function Passed(c: Config, t: Task, ph: Phase): nat {
    if ph.Writing? then ph.w else if PhaseValue(ph).Some? then |Cells(c, t)| else 0
  }

  /** A cell the task has passed holds its value if it accepts it; nothing was written twice. */
  ghost predicate CellsWritten(c: Config, sh: Shared, t: Task, ph: Phase) {
    && Passed(c, t, ph) <= |Cells(c, t)|
    && forall w :: 0 <= w < |Cells(c, t)| ==>
         History(sh, Cells(c, t)[w]) ==
           if w < Passed(c, t, ph)
               && Accepts(c, Cells(c, t)[w], PhaseValue(ph).value) then [PhaseValue(ph).value] else []
  }

  predicate Substituted(c: Config, t: Task)
    requires TaskKnown(c, t)
  {
    Subject(c, t) in c.overrides || (t.NodeTask? && t.p in c.eager)
  }

  /** Entry i of the log is a constructor call that task t has made. */
  ghost predicate CalledBy(sh: Shared, i: nat, t: Task) {
    i < |sh.log| && sh.log[i] == t
  }

  /** Which value a task holds; where it calls the constructor, it is the value of its own call. */
  ghost predicate ValueOk(c: Config, sh: Shared, t: Task, ph: Phase)
    requires TaskKnown(c, t)
  {
    var p := Subject(c, t);
    && (t in sh.log ==> !ph.Waiting? && !ph.Resolving?)
    && (ph.Constructing? ==> CalledBy(sh, ph.call, t))
    && (Substituted(c, t) || (t.NodeTask? && IsTransient(t.p)) ==> t !in sh.log)
    && (PhaseValue(ph).Some? ==>
          var v := PhaseValue(ph).value;
          && (t.NodeTask? ==> p in sh.resolved && sh.resolved[p] == v)
          && (if p in c.overrides then v == c.overrides[p]
              else if t.NodeTask? && p in c.eager then v == c.eager[p]
              else v.Made? && v.p == p && CalledBy(sh, v.call, t)))
  }

  ghost predicate TaskOk(c: Config, sh: Shared, t: Task, ph: Phase) {
    && TaskKnown(c, t) && PhaseFits(t, ph) && WaitedFor(c, sh, t, ph)
    && ClosedOnce(sh, t, ph) && CellsWritten(c, sh, t, ph) && ValueOk(c, sh, t, ph)
  }

  /** No cell is written but by a task that it belongs to. */
  ghost predicate OnlyOwnersWrite(c: Config, sh: Shared) {
    forall x :: History(sh, x) != [] ==> exists t :: t in c.tasks && x in Cells(c, t)
  }

  ghost predicate Inv(c: Config, s: State) {
    && |s.phase| == |c.tasks| && s.sh.closes.Keys == Elems(c.nodes)
    && NoDup(s.sh.log) && (forall t :: t in s.sh.log ==> t in c.tasks)
    && OnlyOwnersWrite(c, s.sh)
    && forall k :: 0 <= k < |c.tasks| ==> TaskOk(c, s.sh, c.tasks[k], s.phase[k])
  }

  // ---- the invariant is kept ----

  /** What one step of task t may touch. */
  ghost predicate Touches(c: Config, sh: Shared, sh': Shared, t: Task)
    requires TaskKnown(c, t)
  {
    && sh'.closes.Keys == sh.closes.Keys
    && (forall p :: p in sh.closes ==> sh.closes[p] <= sh'.closes[p])
    && (forall p :: p in sh.closes && t != NodeTask(p) ==> sh'.closes[p] == sh.closes[p])
    && (forall x :: x !in Cells(c, t) ==> History(sh', x) == History(sh, x))
    && (sh'.log == sh.log || (t !in sh.log && sh'.log == sh.log + [t]))
    && (forall p :: p != Subject(c, t) && p in sh.resolved ==> p in sh'.resolved && sh'.resolved[p] == sh.resolved[p])
  }

  lemma WriteTouches(c: Config, sh: Shared, t: Task, x: Cell, v: Value)
    requires TaskKnown(c, t) && x in Cells(c, t)
    ensures Touches(c, sh, Write(c, sh, x, v), t)
  {
  }

  lemma BeginTouches(c: Config, sh: Shared, t: Task)
    requires TaskKnown(c, t) && t !in sh.log
    ensures Touches(c, sh, Begin(c, sh, t).1, t)
  {
  }

  lemma ResolveTouches(c: Config, sh: Shared, t: Task, v: Value)
    requires TaskKnown(c, t)
    ensures Touches(c, sh, sh.(resolved := sh.resolved[Subject(c, t) := v]), t)
  {
  }

  lemma ActTouches(c: Config, sh: Shared, t: Task, ph: Phase, ch: Choice)
    requires TaskOk(c, sh, t, ph)
    ensures Touches(c, sh, Act(c, sh, t, ph, ch).1, t)
  {
    match ph
    case Resolving => BeginTouches(c, sh, t);
    case Constructing(call) => ResolveTouches(c, sh, t, Made(Subject(c, t), call));
    case Writing(v, w) =>
      if w < |Cells(c, t)| {
        var x := Cells(c, t)[w];
        assert x in Cells(c, t);
        WriteTouches(c, sh, t, x, v);
      }
    case _ =>
  }

  lemma OwnCells(c: Config, t: Task, u: Task, x: Cell)
    requires TaskKnown(c, t) && TaskKnown(c, u) && t != u && x in Cells(c, t)
    ensures x !in Cells(c, u)
  {
  }

  lemma OthersKeep(c: Config, sh: Shared, sh': Shared, t: Task, u: Task, ph: Phase)
    requires TaskKnown(c, t) && t != u && Touches(c, sh, sh', t) && TaskOk(c, sh, u, ph)
    ensures TaskOk(c, sh', u, ph)
  {
    forall w | 0 <= w < |Cells(c, u)| ensures History(sh', Cells(c, u)[w]) == History(sh, Cells(c, u)[w]) {
      var x := Cells(c, u)[w];
      assert x in Cells(c, u);
      if x in Cells(c, t) {
        OwnCells(c, t, u, x);
      }
    }
    assert CellsWritten(c, sh', u, ph);
    assert WaitedFor(c, sh', u, ph);
    assert u in sh'.log <==> u in sh.log;
    assert ValueOk(c, sh', u, ph);
  }

  lemma WaitKeeps(c: Config, sh: Shared, t: Task, i: nat, ch: Choice)
    requires TaskOk(c, sh, t, Waiting(i)) && CanAct(c, sh, t, Waiting(i))
    ensures TaskOk(c, sh, t, Wait(c, sh, t, i, ch))
  {
    var ws := Waits(c, t);
    if i < |ws| {
      assert ws[..i + 1] == ws[..i] + [ws[i]];
    } else {
      assert ws[..i] == ws;
    }
  }

  lemma WriteFills(c: Config, sh: Shared, t: Task, v: Value, w: nat)
    requires CellsWritten(c, sh, t, Writing(v, w)) && w < |Cells(c, t)|
    ensures CellsWritten(c, Write(c, sh, Cells(c, t)[w], v), t, Writing(v, w + 1))
  {
    var cells, sh' := Cells(c, t), Write(c, sh, Cells(c, t)[w], v);
    forall j | 0 <= j < |cells|
      ensures History(sh', cells[j]) == if j < w + 1 && Accepts(c, cells[j], v) then [v] else [] {
      assert j != w ==> cells[j] != cells[w];
    }
  }

  lemma WriteKeeps(c: Config, sh: Shared, t: Task, v: Value, w: nat)
    requires TaskOk(c, sh, t, Writing(v, w)) && w < |Cells(c, t)|
    ensures TaskOk(c, Write(c, sh, Cells(c, t)[w], v), t, Writing(v, w + 1))
  {
    WriteFills(c, sh, t, v, w);
    var sh', ph' := Write(c, sh, Cells(c, t)[w], v), Writing(v, w + 1);
    assert sh'.log == sh.log && sh'.closes == sh.closes && sh'.resolved == sh.resolved;
    assert WaitedFor(c, sh', t, ph');
    assert ValueOk(c, sh', t, ph');
  }

  lemma BeginKeeps(c: Config, sh: Shared, t: Task)
    requires TaskOk(c, sh, t, Resolving)
    ensures var (ph', sh') := Begin(c, sh, t); TaskOk(c, sh', t, ph')
  {
  }

  lemma ConstructKeeps(c: Config, sh: Shared, t: Task, call: nat, ch: Choice)
    requires TaskOk(c, sh, t, Constructing(call))
    ensures var (ph', sh') := Act(c, sh, t, Constructing(call), ch); TaskOk(c, sh', t, ph')
  {
  }

  lemma LeaveKeeps(c: Config, sh: Shared, t: Task, v: Value, w: nat)
    requires TaskOk(c, sh, t, Writing(v, w)) && w == |Cells(c, t)|
    ensures TaskOk(c, sh, t, Leave(t, Done(Some(v))))
  {
  }

  lemma ExitKeeps(c: Config, sh: Shared, t: Task, ph: Phase, ch: Choice)
    requires TaskOk(c, sh, t, ph) && (ph.Closing? || ph.Returning?)
    ensures var (ph', sh') := Act(c, sh, t, ph, ch); TaskOk(c, sh', t, ph')
  {
  }

  lemma WritingKeeps(c: Config, sh: Shared, t: Task, v: Value, w: nat, ch: Choice)
    requires TaskOk(c, sh, t, Writing(v, w)) && CanAct(c, sh, t, Writing(v, w))
    ensures var (ph', sh') := Act(c, sh, t, Writing(v, w), ch); TaskOk(c, sh', t, ph')
  {
    if w < |Cells(c, t)| {
      WriteKeeps(c, sh, t, v, w);
    } else {
      LeaveKeeps(c, sh, t, v, w);
    }
  }

  lemma ActKeeps(c: Config, sh: Shared, t: Task, ph: Phase, ch: Choice)
    requires TaskOk(c, sh, t, ph) && CanAct(c, sh, t, ph)
    ensures var (ph', sh') := Act(c, sh, t, ph, ch); TaskOk(c, sh', t, ph')
  {
    match ph
    case Waiting(i) => WaitKeeps(c, sh, t, i, ch);
    case Resolving => BeginKeeps(c, sh, t);
    case Constructing(call) => ConstructKeeps(c, sh, t, call, ch);
    case Writing(v, w) => WritingKeeps(c, sh, t, v, w, ch);
    case _ => ExitKeeps(c, sh, t, ph, ch);
  }

  lemma AdvanceKeepsInv(c: Config, s: State, k: nat, ch: Choice)
    requires NoDup(c.tasks) && Inv(c, s) && Enabled(c, s, k)
    ensures Inv(c, Advance(c, s, k, ch))
  {
    var s', t := Advance(c, s, k, ch), c.tasks[k];
    ActTouches(c, s.sh, t, s.phase[k], ch);
    ActKeeps(c, s.sh, t, s.phase[k], ch);
    forall j | 0 <= j < |c.tasks| ensures TaskOk(c, s'.sh, c.tasks[j], s'.phase[j]) {
      if j != k {
        OthersKeep(c, s.sh, s'.sh, t, c.tasks[j], s.phase[j]);
      }
    }
  }
}
