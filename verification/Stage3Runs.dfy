// What every run of the resolution stage guarantees: no deadlock, filled placeholders before
// constructors start, and exact call and write counts.
module Stage3Runs {
  import opened Graphs
  import opened Modules
  import opened Resolver
  import opened Stage3

  // ---- the invariant over runs ----

  lemma InitInv(c: Config, order: seq<Provider>)
    requires WellFormed(c, order)
    ensures Inv(c, Init(c))
  {
    var s := Init(c);
    forall k | 0 <= k < |c.tasks| ensures TaskOk(c, s.sh, c.tasks[k], s.phase[k]) {
      assert c.tasks[k] in c.tasks;
      if c.tasks[k].NodeTask? {
        assert NodeTask(c.tasks[k].p) in c.tasks;
      } else {
        assert EdgeTask(c.tasks[k].e) in c.tasks;
      }
      assert Waits(c, c.tasks[k])[..0] == [];
    }
  }

  lemma NextKeepsInv(c: Config, order: seq<Provider>, s: State, s': State)
    requires WellFormed(c, order) && Inv(c, s) && Next(c, s, s')
    ensures Inv(c, s')
  {
    if k: nat, ch :| Enabled(c, s, k) && s' == Advance(c, s, k, ch) {
      AdvanceKeepsInv(c, s, k, ch);
    } else {
      CancelKeepsInv(c, s);
    }
  }

  lemma CancelKeepsInv(c: Config, s: State)
    requires Inv(c, s)
    ensures Inv(c, s.(sh := s.sh.(cancelled := true)))
  {
    var sh' := s.sh.(cancelled := true);
    forall k | 0 <= k < |c.tasks| ensures TaskOk(c, sh', c.tasks[k], s.phase[k]) {
      CancelKeepsTask(c, s.sh, c.tasks[k], s.phase[k]);
    }
    assert forall x :: History(sh', x) == History(s.sh, x);
  }

  lemma CancelKeepsTask(c: Config, sh: Shared, t: Task, ph: Phase)
    requires TaskOk(c, sh, t, ph)
    ensures TaskOk(c, sh.(cancelled := true), t, ph)
  {
    assert forall x :: History(sh.(cancelled := true), x) == History(sh, x);
  }

  lemma {:induction false} RunInv(c: Config, order: seq<Provider>, run: seq<State>, i: nat)
    requires WellFormed(c, order) && Run(c, run) && i < |run|
    ensures Inv(c, run[i])
  {
    if i == 0 {
      InitInv(c, order);
    } else {
      RunInv(c, order, run, i - 1);
      assert NextAt(c, run, i);
      NextKeepsInv(c, order, run[i - 1], run[i]);
    }
  }

  // ---- no deadlock ----

  lemma NodeTaskIndex(c: Config, order: seq<Provider>, p: Provider) returns (j: nat)
    requires WellFormed(c, order) && p in c.nodes
    ensures j < |c.tasks| && c.tasks[j] == NodeTask(p)
  {
    assert NodeTask(p) in c.tasks;
    j :| 0 <= j < |c.tasks| && c.tasks[j] == NodeTask(p);
  }

  ghost function Level(c: Config, order: seq<Provider>, t: Task): nat
    requires TaskKnown(c, t)
  {
    2 * Rank(order, Subject(c, t)) + if t.EdgeTask? then 1 else 0
  }

  lemma BlockedOnOpenChannel(c: Config, s: State, k: nat) returns (dep: Provider)
    requires Inv(c, s) && k < |c.tasks| && !s.phase[k].Finished? && !Enabled(c, s, k)
    ensures TaskKnown(c, c.tasks[k]) && dep in Waits(c, c.tasks[k])
    ensures dep in s.sh.closes && s.sh.closes[dep] == 0
  {
    assert TaskOk(c, s.sh, c.tasks[k], s.phase[k]);
    dep := Waits(c, c.tasks[k])[s.phase[k].i];
  }

  lemma OpenChannelIsUnfinished(c: Config, order: seq<Provider>, s: State, dep: Provider) returns (j: nat)
    requires WellFormed(c, order) && Inv(c, s) && dep in s.sh.closes && s.sh.closes[dep] == 0
    ensures j < |c.tasks| && c.tasks[j] == NodeTask(dep) && !s.phase[j].Finished?
  {
    j := NodeTaskIndex(c, order, dep);
    assert TaskOk(c, s.sh, c.tasks[j], s.phase[j]);
  }

  /** What a task waits for is lower in the topological order. */
  lemma WaitsForLower(c: Config, order: seq<Provider>, t: Task, dep: Provider)
    requires Topological(c.graph, order) && c.graph.Keys <= Elems(order) && TaskKnown(c, t) && dep in Waits(c, t)
    ensures Level(c, order, NodeTask(dep)) < Level(c, order, t)
  {
    if t.NodeTask? {
      EdgesDescend(c.graph, order, t.p, dep);
    }
  }

  /** A blocked task waits for an unfinished one that is lower in the topological order. */
  lemma BlockedByLower(c: Config, order: seq<Provider>, s: State, k: nat) returns (j: nat)
    requires WellFormed(c, order) && Inv(c, s)
    requires k < |c.tasks| && !s.phase[k].Finished? && !Enabled(c, s, k)
    ensures j < |c.tasks| && c.tasks[j].NodeTask? && !s.phase[j].Finished?
    ensures TaskKnown(c, c.tasks[k]) && Level(c, order, c.tasks[j]) < Level(c, order, c.tasks[k])
  {
    var dep := BlockedOnOpenChannel(c, s, k);
    WaitsForLower(c, order, c.tasks[k], dep);
    j := OpenChannelIsUnfinished(c, order, s, dep);
  }

  /** In every reachable state with an unfinished task, some task can move: a blocked task
      leads down the topological order to one that is not. */
  lemma {:induction false} NoDeadlock(c: Config, order: seq<Provider>, s: State, k: nat)
    requires WellFormed(c, order) && Inv(c, s)
    requires k < |c.tasks| && TaskKnown(c, c.tasks[k]) && !s.phase[k].Finished?
    ensures exists j: nat :: Enabled(c, s, j)
    decreases Level(c, order, c.tasks[k])
  {
    if !Enabled(c, s, k) {
      var j := BlockedByLower(c, order, s, k);
      NoDeadlock(c, order, s, j);
    }
  }

  // ---- every run is finite ----

  function Weight(c: Config, t: Task, ph: Phase): nat
    requires TaskKnown(c, t)
  {
    match ph
    case Finished(_) => 0
    case Returning(_) => 1
    case Closing(_) => 2
    case Writing(_, w) => if w <= |Cells(c, t)| then 3 + |Cells(c, t)| - w else 3
    case Constructing(_) => 4 + |Cells(c, t)|
    case Resolving => 5 + |Cells(c, t)|
    case Waiting(i) => 6 + |Cells(c, t)| + if i <= |Waits(c, t)| then |Waits(c, t)| - i else 0
  }

  function Sum(ws: seq<nat>): nat {
    if ws == [] then 0 else Sum(ws[..|ws| - 1]) + ws[|ws| - 1]
  }

  lemma {:induction false} SumUpdates(ws: seq<nat>, j: nat, w: nat)
    requires j < |ws|
    ensures Sum(ws[j := w]) + ws[j] == Sum(ws) + w
  {
    var last := |ws| - 1;
    if j < last {
      SumUpdates(ws[..last], j, w);
      assert ws[j := w][..last] == ws[..last][j := w];
    } else {
      assert ws[j := w][..last] == ws[..last];
    }
  }

  ghost predicate AllKnown(c: Config) {
    forall k :: 0 <= k < |c.tasks| ==> TaskKnown(c, c.tasks[k])
  }

  ghost function Weights(c: Config, phase: seq<Phase>): (r: seq<nat>)
    requires |phase| == |c.tasks| && AllKnown(c)
    ensures |r| == |phase| && forall k :: 0 <= k < |r| ==> r[k] == Weight(c, c.tasks[k], phase[k])
  {
    seq(|phase|, k requires 0 <= k < |phase| => Weight(c, c.tasks[k], phase[k]))
  }

  /** Work left in a state: every step spends some. */
  ghost function Energy(c: Config, s: State): nat
    requires |s.phase| == |c.tasks| && AllKnown(c)
  {
    Sum(Weights(c, s.phase)) + if s.sh.cancelled then 0 else 1
  }

  lemma ActSpends(c: Config, sh: Shared, t: Task, ph: Phase, ch: Choice)
    requires TaskOk(c, sh, t, ph) && CanAct(c, sh, t, ph)
    ensures Weight(c, t, Act(c, sh, t, ph, ch).0) < Weight(c, t, ph)
  {
  }

  lemma InvKnowsTasks(c: Config, s: State)
    requires Inv(c, s)
    ensures AllKnown(c)
  {
    forall k | 0 <= k < |c.tasks| ensures TaskKnown(c, c.tasks[k]) {
      assert TaskOk(c, s.sh, c.tasks[k], s.phase[k]);
    }
  }

  lemma LighterPhase(c: Config, phase: seq<Phase>, k: nat, ph: Phase)
    requires AllKnown(c) && k < |phase| == |c.tasks|
    requires Weight(c, c.tasks[k], ph) < Weight(c, c.tasks[k], phase[k])
    ensures Sum(Weights(c, phase[k := ph])) < Sum(Weights(c, phase))
  {
    var w := Weight(c, c.tasks[k], ph);
    SumUpdates(Weights(c, phase), k, w);
    assert Weights(c, phase[k := ph]) == Weights(c, phase)[k := w];
  }

  lemma CancelSticks(c: Config, sh: Shared, t: Task, ph: Phase, ch: Choice)
    requires TaskKnown(c, t) && sh.cancelled
    ensures Act(c, sh, t, ph, ch).1.cancelled
  {
  }

  lemma AdvanceSpends(c: Config, s: State, k: nat, ch: Choice)
    requires Inv(c, s) && Enabled(c, s, k) && AllKnown(c)
    ensures Energy(c, Advance(c, s, k, ch)) < Energy(c, s)
  {
    var t, ph := c.tasks[k], s.phase[k];
    assert TaskOk(c, s.sh, t, ph);
    ActSpends(c, s.sh, t, ph, ch);
    LighterPhase(c, s.phase, k, Act(c, s.sh, t, ph, ch).0);
    if s.sh.cancelled {
      CancelSticks(c, s.sh, t, ph, ch);
    }
  }

  lemma NextSpends(c: Config, s: State, s': State)
    requires Inv(c, s) && Next(c, s, s')
    ensures |s'.phase| == |c.tasks| && AllKnown(c)
    ensures Energy(c, s') < Energy(c, s)
  {
    InvKnowsTasks(c, s);
    if k: nat, ch :| Enabled(c, s, k) && s' == Advance(c, s, k, ch) {
      AdvanceSpends(c, s, k, ch);
    }
  }

  ghost predicate Spends(c: Config, run: seq<State>, j: nat)
    requires 0 < j < |run| && AllKnown(c)
  {
    |run[j - 1].phase| == |c.tasks| == |run[j].phase| && Energy(c, run[j]) < Energy(c, run[j - 1])
  }

  lemma StepSpends(c: Config, order: seq<Provider>, run: seq<State>, j: nat)
    requires WellFormed(c, order) && AllKnown(c) && Run(c, run) && 0 < j < |run|
    ensures Spends(c, run, j)
  {
    RunInv(c, order, run, j - 1);
    assert NextAt(c, run, j);
    NextSpends(c, run[j - 1], run[j]);
  }

  lemma TasksAreKnown(c: Config, order: seq<Provider>)
    requires WellFormed(c, order)
    ensures AllKnown(c)
  {
    InitInv(c, order);
    InvKnowsTasks(c, Init(c));
  }

  lemma {:induction false} EnergyFalls(c: Config, run: seq<State>, i: nat)
    requires AllKnown(c) && i < |run| && run[0] == Init(c)
    requires forall j :: 0 < j < |run| ==> Spends(c, run, j)
    ensures |run[i].phase| == |c.tasks| && i + Energy(c, run[i]) <= Energy(c, Init(c))
  {
    if i > 0 {
      EnergyFalls(c, run, i - 1);
      assert Spends(c, run, i);
    }
  }

  /** No run takes more steps than there is work in the initial state. */
  lemma RunsAreBounded(c: Config, order: seq<Provider>, run: seq<State>)
    requires WellFormed(c, order) && Run(c, run)
    ensures AllKnown(c) && |run| - 1 <= Energy(c, Init(c))
  {
    TasksAreKnown(c, order);
    forall j | 0 < j < |run| ensures Spends(c, run, j) {
      StepSpends(c, order, run, j);
    }
    EnergyFalls(c, run, |run| - 1);
  }

  /** No task can move. */
  ghost predicate Stuck(c: Config, s: State) {
    forall k: nat :: !Enabled(c, s, k)
  }

  ghost predicate AllFinished(c: Config, s: State) {
    && |s.phase| == |c.tasks|
    && (forall k :: 0 <= k < |c.tasks| ==> s.phase[k].Finished?)
    && (forall p :: p in c.nodes ==> p in s.sh.closes && s.sh.closes[p] == 1)
  }

  lemma StuckMeansFinished(c: Config, order: seq<Provider>, s: State)
    requires WellFormed(c, order) && AllKnown(c) && Inv(c, s) && Stuck(c, s)
    ensures AllFinished(c, s)
  {
    forall k | 0 <= k < |c.tasks| ensures s.phase[k].Finished? {
      if !s.phase[k].Finished? {
        NoDeadlock(c, order, s, k);
      }
    }
    forall p | p in c.nodes ensures p in s.sh.closes && s.sh.closes[p] == 1 {
      var j := NodeTaskIndex(c, order, p);
      assert TaskOk(c, s.sh, c.tasks[j], s.phase[j]);
    }
  }

  /** A run that cannot be continued has finished every task and closed every channel exactly
      once. */
  lemma MaximalRunsFinish(c: Config, order: seq<Provider>, run: seq<State>)
    requires WellFormed(c, order) && Run(c, run) && Stuck(c, run[|run| - 1])
    ensures AllFinished(c, run[|run| - 1])
  {
    TasksAreKnown(c, order);
    RunInv(c, order, run, |run| - 1);
    StuckMeansFinished(c, order, run[|run| - 1]);
  }

  // ---- runs that return nil ----

  ghost predicate Clean(s: State) {
    forall k :: 0 <= k < |s.phase| ==> !Failed(s.phase[k])
  }

  /** The error group waits for every goroutine and reports the first error. */
  ghost predicate ReturnsNil(s: State) {
    forall k :: 0 <= k < |s.phase| ==> s.phase[k].Finished? && !Failed(s.phase[k])
  }

  lemma FailureSticks(c: Config, s: State, s': State)
    requires Next(c, s, s') && Clean(s')
    ensures Clean(s)
  {
    if k: nat, ch :| Enabled(c, s, k) && s' == Advance(c, s, k, ch) {
      forall j | 0 <= j < |s.phase| ensures !Failed(s.phase[j]) {
        assert !Failed(s'.phase[j]);
      }
    }
  }

  lemma {:induction false} CleanThroughout(c: Config, run: seq<State>, i: nat)
    requires Run(c, run) && i < |run| && Clean(run[|run| - 1])
    ensures Clean(run[i])
    decreases |run| - i
  {
    if i < |run| - 1 {
      CleanThroughout(c, run, i + 1);
      assert NextAt(c, run, i + 1);
      FailureSticks(c, run[i], run[i + 1]);
    }
  }

  /** The type of the value that a provider is resolved to. */
  function ArrivingType(c: Config, p: Provider): Type {
    if p in c.overrides then TypeOf(c.overrides[p]) else p.ResolvedType()
  }

  /** What a cell of a resolved provider holds: its value, unless the cell cannot take it. */
  function Filled(c: Config, sh: Shared, x: Cell, p: Provider): seq<Value>
    requires p in sh.resolved
  {
    if Accepts(c, x, sh.resolved[p]) then [sh.resolved[p]] else []
  }

  /** A provider whose channel is closed in a clean state holds its value, and every cell of
      its has been given it. */
  lemma ClosedMeansResolved(c: Config, order: seq<Provider>, s: State, p: Provider, x: Cell)
    requires WellFormed(c, order) && Inv(c, s) && Clean(s)
    requires p in c.nodes && !IsTransient(p) && p in s.sh.closes && s.sh.closes[p] > 0
    ensures p in s.sh.resolved
    ensures TypeOf(s.sh.resolved[p]) == ArrivingType(c, p)
    ensures x in Cells(c, NodeTask(p)) ==> History(s.sh, x) == Filled(c, s.sh, x, p)
  {
    var j := NodeTaskIndex(c, order, p);
    assert TaskOk(c, s.sh, c.tasks[j], s.phase[j]);
    if x in Cells(c, NodeTask(p)) {
      var w :| 0 <= w < |Cells(c, NodeTask(p))| && Cells(c, NodeTask(p))[w] == x;
    }
  }

  /** A task that has passed its waits in a clean state finds every dependency of its provider
      closed; an edge's task learns so from its provider's own channel. */
  lemma DependenciesClosed(c: Config, order: seq<Provider>, s: State, k: nat, v: Provider)
    requires WellFormed(c, order) && Inv(c, s) && Clean(s)
    requires k < |c.tasks| && !s.phase[k].Waiting? && TaskKnown(c, c.tasks[k])
    requires Subject(c, c.tasks[k]) in c.nodes && v in Deps(c.graph, Subject(c, c.tasks[k]))
    ensures v in s.sh.closes && s.sh.closes[v] > 0
  {
    var t := c.tasks[k];
    assert TaskOk(c, s.sh, t, s.phase[k]);
    if t.EdgeTask? {
      var p := Subject(c, t);
      assert p in Waits(c, t);
      var j := NodeTaskIndex(c, order, p);
      assert TaskOk(c, s.sh, c.tasks[j], s.phase[j]);
    }
  }

  ghost predicate PlaceholderSupplied(c: Config, sh: Shared, p: Provider, e: nat) {
    e < |c.targets| && e < |c.edgeOwner| && c.edgeOwner[e] == ProviderOwner(p) && !IsTransient(c.targets[e])
    ==> c.targets[e] in sh.resolved && History(sh, Placeholder(e)) == Filled(c, sh, Placeholder(e), c.targets[e])
  }

  ghost predicate SlotSupplied(c: Config, sh: Shared, p: Provider, i: nat) {
    i < |c.slots| && c.slots[i].owner == ProviderOwner(p) && c.slots[i].member in c.nodes
        && !IsTransient(c.slots[i].member)
    ==> c.slots[i].member in sh.resolved && History(sh, Slot(i)) == Filled(c, sh, Slot(i), c.slots[i].member)
  }

  /** The cells owned by p whose targets are non-transient have all been given their targets'
      values, and hold them as far as they can take them. */
  ghost predicate Supplied(c: Config, sh: Shared, p: Provider) {
    && (forall e: nat :: PlaceholderSupplied(c, sh, p, e))
    && (forall i: nat :: SlotSupplied(c, sh, p, i))
  }

  /** Past its waits, a task finds every cell of a dependency filled. */
  lemma DependencyFilled(c: Config, order: seq<Provider>, s: State, k: nat, v: Provider, x: Cell)
    requires WellFormed(c, order) && Inv(c, s) && Clean(s)
    requires k < |c.tasks| && !s.phase[k].Waiting? && TaskKnown(c, c.tasks[k])
    requires Subject(c, c.tasks[k]) in c.nodes && v in Deps(c.graph, Subject(c, c.tasks[k]))
    requires !IsTransient(v) && x in Cells(c, NodeTask(v))
    ensures v in s.sh.resolved && TypeOf(s.sh.resolved[v]) == ArrivingType(c, v)
    ensures History(s.sh, x) == Filled(c, s.sh, x, v)
  {
    DependenciesClosed(c, order, s, k, v);
    ClosedMeansResolved(c, order, s, v, x);
  }

  lemma PlaceholderPastWaits(c: Config, order: seq<Provider>, s: State, k: nat, e: nat)
    requires WellFormed(c, order) && Inv(c, s) && Clean(s)
    requires k < |c.tasks| && !s.phase[k].Waiting? && TaskKnown(c, c.tasks[k]) && Subject(c, c.tasks[k]) in c.nodes
    ensures PlaceholderSupplied(c, s.sh, Subject(c, c.tasks[k]), e)
  {
    if e < |c.targets| && c.edgeOwner[e] == ProviderOwner(Subject(c, c.tasks[k])) && !IsTransient(c.targets[e]) {
      DependencyFilled(c, order, s, k, c.targets[e], Placeholder(e));
    }
  }

  lemma SlotPastWaits(c: Config, order: seq<Provider>, s: State, k: nat, i: nat)
    requires WellFormed(c, order) && Inv(c, s) && Clean(s)
    requires k < |c.tasks| && !s.phase[k].Waiting? && TaskKnown(c, c.tasks[k]) && Subject(c, c.tasks[k]) in c.nodes
    ensures SlotSupplied(c, s.sh, Subject(c, c.tasks[k]), i)
  {
    if i < |c.slots| && c.slots[i].owner == ProviderOwner(Subject(c, c.tasks[k])) && c.slots[i].member in c.nodes
        && !IsTransient(c.slots[i].member) {
      DependencyFilled(c, order, s, k, c.slots[i].member, Slot(i));
    }
  }

  /** A placeholder takes what arrives unless an override of another type stands in; a slot takes
      it if its type is assignable to the interface. */
  lemma AcceptsArrivingIff(c: Config, x: Cell, p: Provider, v: Value)
    requires TypeOf(v) == ArrivingType(c, p)
    requires if x.Placeholder? then x.e < |c.targets| && c.targets[x.e] == p
             else x.s < |c.slots| && c.slots[x.s].member == p
    ensures Accepts(c, x, v) <==> Takes(c, x, p)
  {
  }

  predicate Takes(c: Config, x: Cell, p: Provider) {
    match x
    case Placeholder(_) => p !in c.overrides || TypeOf(c.overrides[p]) == p.ResolvedType()
    case Slot(s) => s < |c.slots| && Assignable(c.assignable, ArrivingType(c, p), c.slots[s].iface)
  }

  lemma SubjectsAreNodes(c: Config, order: seq<Provider>, k: nat)
    requires WellFormed(c, order) && k < |c.tasks|
    ensures TaskKnown(c, c.tasks[k]) && Subject(c, c.tasks[k]) in c.nodes
  {
    assert c.tasks[k] in c.tasks;
    if c.tasks[k].NodeTask? {
      assert NodeTask(c.tasks[k].p) in c.tasks;
    } else {
      assert EdgeTask(c.tasks[k].e) in c.tasks;
    }
  }

  /** In a run that returns nil, whenever a constructor starts, for a singleton or for one
      injection of a transient, every placeholder and slice slot of its provider with a
      non-transient target already holds the target's value. */
  lemma SuppliedBeforeConstruction(c: Config, order: seq<Provider>, run: seq<State>, i: nat, k: nat)
    requires WellFormed(c, order) && Run(c, run) && ReturnsNil(run[|run| - 1])
    requires i < |run| && k < |c.tasks| && k < |run[i].phase|
               && (run[i].phase[k].Resolving? || run[i].phase[k].Constructing?)
    ensures TaskKnown(c, c.tasks[k]) && Supplied(c, run[i].sh, Subject(c, c.tasks[k]))
  {
    RunInv(c, order, run, i);
    CleanThroughout(c, run, i);
    SubjectsAreNodes(c, order, k);
    var s, p := run[i], Subject(c, c.tasks[k]);
    forall e: nat ensures PlaceholderSupplied(c, s.sh, p, e) {
      PlaceholderPastWaits(c, order, s, k, e);
    }
    forall j: nat ensures SlotSupplied(c, s.sh, p, j) {
      SlotPastWaits(c, order, s, k, j);
    }
  }

  // ---- exact counts ----

  /** The constructor calls made for a provider, one task each. */
  ghost function Calls(c: Config, log: seq<Task>, p: Provider): set<Task> {
    set t | t in log && TaskKnown(c, t) && Subject(c, t) == p
  }

  ghost function InjectionsOf(c: Config, p: Provider): set<Task> {
    set e: nat | e < |c.targets| && c.targets[e] == p :: EdgeTask(e)
  }

  /** Which tasks call a constructor by the time a run returns nil. */
  lemma FinishedHasCalled(c: Config, s: State, t: Task)
    requires Inv(c, s) && ReturnsNil(s) && t in c.tasks && TaskKnown(c, t)
    requires forall p :: p in c.eager ==> c.eager[p] == Eager(p)
    ensures t in s.sh.log <==> !Substituted(c, t) && !(t.NodeTask? && IsTransient(t.p))
  {
    var k :| 0 <= k < |c.tasks| && c.tasks[k] == t;
    assert TaskOk(c, s.sh, c.tasks[k], s.phase[k]);
  }

  /** The tasks that have to call a provider's constructor. */
  ghost function Due(c: Config, p: Provider): set<Task> {
    if p in c.overrides then {}
    else if IsTransient(p) then InjectionsOf(c, p)
    else if p in c.eager then {}
    else {NodeTask(p)}
  }

  /** In a run that returns nil, the stage calls the constructor of an overridden provider never,
      that of a transient one exactly once per injection of it, and that of any other exactly
      once unless it was resolved eagerly, then never. */
  lemma CallsAreExact(c: Config, order: seq<Provider>, run: seq<State>, p: Provider)
    requires WellFormed(c, order) && Run(c, run) && ReturnsNil(run[|run| - 1]) && p in c.nodes
    ensures var log := run[|run| - 1].sh.log; NoDup(log) && Calls(c, log, p) == Due(c, p)
  {
    RunInv(c, order, run, |run| - 1);
    FinalCalls(c, order, run[|run| - 1], p);
  }

  lemma FinalCalls(c: Config, order: seq<Provider>, s: State, p: Provider)
    requires WellFormed(c, order) && Inv(c, s) && ReturnsNil(s) && p in c.nodes
    ensures Calls(c, s.sh.log, p) == Due(c, p)
  {
    forall t ensures t in Calls(c, s.sh.log, p) <==> t in Due(c, p) {
      CallIsExpected(c, order, s, t, p);
    }
  }

  lemma CallIsExpected(c: Config, order: seq<Provider>, s: State, t: Task, p: Provider)
    requires WellFormed(c, order) && Inv(c, s) && ReturnsNil(s) && p in c.nodes
    ensures t in Calls(c, s.sh.log, p) <==> t in Due(c, p)
  {
    DueTasks(c, order, t, p);
    if t in c.tasks && TaskKnown(c, t) && Subject(c, t) == p {
      FinishedHasCalled(c, s, t);
    }
  }

  lemma DueTasks(c: Config, order: seq<Provider>, t: Task, p: Provider)
    requires WellFormed(c, order) && p in c.nodes
    ensures t in Due(c, p) <==>
              t in c.tasks && TaskKnown(c, t) && Subject(c, t) == p && !Substituted(c, t)
                  && !(t.NodeTask? && IsTransient(t.p))
  {
    assert NodeTask(p) in c.tasks;
    assert t.EdgeTask? ==> (t in c.tasks <==> TaskKnown(c, t));
  }

  /** In a run that returns nil, every placeholder is written exactly once, except that one whose
      provider is overridden by a value of another type is never written. */
  lemma PlaceholdersWrittenOnce(c: Config, order: seq<Provider>, run: seq<State>, e: nat)
    requires WellFormed(c, order) && Run(c, run) && ReturnsNil(run[|run| - 1]) && e < |c.targets|
    ensures |History(run[|run| - 1].sh, Placeholder(e))| == if Takes(c, Placeholder(e), c.targets[e]) then 1 else 0
  {
    RunInv(c, order, run, |run| - 1);
    WriterOf(c, order, e);
    FinishedHasWritten(c, run[|run| - 1], if IsTransient(c.targets[e]) then EdgeTask(e) else NodeTask(c.targets[e]),
        Placeholder(e));
  }

  lemma WriterOf(c: Config, order: seq<Provider>, e: nat)
    requires WellFormed(c, order) && e < |c.targets|
    ensures var t := if IsTransient(c.targets[e]) then EdgeTask(e) else NodeTask(c.targets[e]);
              t in c.tasks && Placeholder(e) in Cells(c, t)
  {
    assert EdgeTask(e) in c.tasks <==> IsTransient(c.targets[e]);
    assert NodeTask(c.targets[e]) in c.tasks;
  }

  /** A slice slot is written, exactly once, in a run that returns nil if and only if its member
      is a node of the stage, is not transient, and resolves to a value of a fitting type. */
  lemma SlotsWrittenOnce(c: Config, order: seq<Provider>, run: seq<State>, i: nat)
    requires WellFormed(c, order) && Run(c, run) && ReturnsNil(run[|run| - 1]) && i < |c.slots|
    ensures |History(run[|run| - 1].sh, Slot(i))| == if Writable(c, i) then 1 else 0
  {
    RunInv(c, order, run, |run| - 1);
    if Writable(c, i) {
      assert NodeTask(c.slots[i].member) in c.tasks;
      FinishedHasWritten(c, run[|run| - 1], NodeTask(c.slots[i].member), Slot(i));
    } else {
      UnwritableStaysEmpty(c, order, run[|run| - 1], i);
    }
  }

  predicate Writable(c: Config, i: nat)
    requires i < |c.slots|
  {
    var p := c.slots[i].member;
    p in c.nodes && !IsTransient(p) && Takes(c, Slot(i), p)
  }

  /** No other slot is ever written, whatever becomes of the run. */
  lemma UnwritableSlotsStayEmpty(c: Config, order: seq<Provider>, run: seq<State>, j: nat, i: nat)
    requires WellFormed(c, order) && Run(c, run) && j < |run| && i < |c.slots| && !Writable(c, i)
    ensures History(run[j].sh, Slot(i)) == []
  {
    RunInv(c, order, run, j);
    UnwritableStaysEmpty(c, order, run[j], i);
  }

  lemma UnwritableStaysEmpty(c: Config, order: seq<Provider>, s: State, i: nat)
    requires WellFormed(c, order) && Inv(c, s) && i < |c.slots| && !Writable(c, i)
    ensures History(s.sh, Slot(i)) == []
  {
    forall k | 0 <= k < |c.tasks| && Slot(i) in Cells(c, c.tasks[k]) ensures History(s.sh, Slot(i)) == [] {
      SlotOfTask(c, order, s, k, i);
    }
  }

  lemma SlotOfTask(c: Config, order: seq<Provider>, s: State, k: nat, i: nat)
    requires WellFormed(c, order) && Inv(c, s) && i < |c.slots|
    requires k < |c.tasks| && Slot(i) in Cells(c, c.tasks[k])
    ensures History(s.sh, Slot(i)) != [] ==> Writable(c, i)
  {
    if History(s.sh, Slot(i)) != [] {
      CellTakes(c, s, k, Slot(i));
      assert c.tasks[k] in c.tasks && NodeTask(c.tasks[k].p) in c.tasks;
    }
  }

  /** A cell that was written holds a value of the type that arrives. */
  lemma CellTakes(c: Config, s: State, k: nat, x: Cell)
    requires Inv(c, s) && k < |c.tasks| && x in Cells(c, c.tasks[k]) && History(s.sh, x) != []
    requires forall p :: p in c.eager ==> c.eager[p] == Eager(p)
    ensures TaskKnown(c, c.tasks[k]) && Takes(c, x, Subject(c, c.tasks[k]))
  {
    assert TaskOk(c, s.sh, c.tasks[k], s.phase[k]);
    var w :| 0 <= w < |Cells(c, c.tasks[k])| && Cells(c, c.tasks[k])[w] == x;
    AcceptsArrivingIff(c, x, Subject(c, c.tasks[k]), PhaseValue(s.phase[k]).value);
  }

  lemma FinishedHasWritten(c: Config, s: State, t: Task, x: Cell)
    requires Inv(c, s) && ReturnsNil(s) && t in c.tasks && x in Cells(c, t) && TaskKnown(c, t)
    requires forall p :: p in c.eager ==> c.eager[p] == Eager(p)
    ensures |History(s.sh, x)| == if Takes(c, x, Subject(c, t)) then 1 else 0
  {
    var k :| 0 <= k < |c.tasks| && c.tasks[k] == t;
    assert TaskOk(c, s.sh, c.tasks[k], s.phase[k]);
    var w :| 0 <= w < |Cells(c, t)| && Cells(c, t)[w] == x;
    AcceptsArrivingIff(c, x, Subject(c, t), PhaseValue(s.phase[k]).value);
  }

  // ---- success ----

  /** A run in which no constructor fails and nobody cancels the context. */
  ghost predicate Undisturbed(c: Config, run: seq<State>) {
    && run != [] && run[0] == Init(c)
    && forall j :: 0 < j < |run| ==> ProgressAt(c, run, j)
  }

  ghost predicate ProgressAt(c: Config, run: seq<State>, j: nat)
    requires 0 < j < |run|
  {
    Progress(c, run[j - 1], run[j])
  }

  ghost predicate Progress(c: Config, s: State, s': State) {
    exists k: nat, ch: Choice :: Enabled(c, s, k) && !ch.fails && s' == Advance(c, s, k, ch)
  }

  ghost predicate Healthy(s: State) {
    Clean(s) && !s.sh.cancelled
  }

  lemma ProgressStaysHealthy(c: Config, s: State, s': State)
    requires Inv(c, s) && Healthy(s) && Progress(c, s, s')
    ensures Healthy(s')
  {
    var k: nat, ch: Choice :| Enabled(c, s, k) && !ch.fails && s' == Advance(c, s, k, ch);
    assert TaskOk(c, s.sh, c.tasks[k], s.phase[k]) && !Failed(s.phase[k]);
    ActStaysHealthy(c, s.sh, c.tasks[k], s.phase[k], ch);
  }

  lemma ActStaysHealthy(c: Config, sh: Shared, t: Task, ph: Phase, ch: Choice)
    requires TaskOk(c, sh, t, ph) && CanAct(c, sh, t, ph) && !sh.cancelled && !Failed(ph) && !ch.fails
    ensures var (ph', sh') := Act(c, sh, t, ph, ch); !Failed(ph') && !sh'.cancelled
  {
  }

  lemma ProgressIsNext(c: Config, s: State, s': State)
    requires Progress(c, s, s')
    ensures Next(c, s, s')
  {
    var k: nat, ch: Choice :| Enabled(c, s, k) && !ch.fails && s' == Advance(c, s, k, ch);
  }

  lemma ProgressKeeps(c: Config, order: seq<Provider>, s: State, s': State)
    requires WellFormed(c, order) && Inv(c, s) && Healthy(s) && Progress(c, s, s')
    ensures Inv(c, s') && Healthy(s')
  {
    ProgressIsNext(c, s, s');
    NextKeepsInv(c, order, s, s');
    ProgressStaysHealthy(c, s, s');
  }

  ghost predicate Sane(c: Config, s: State) {
    Inv(c, s) && Healthy(s)
  }

  ghost predicate StaysSane(c: Config, run: seq<State>, j: nat)
    requires 0 < j < |run|
  {
    Sane(c, run[j - 1]) ==> Sane(c, run[j])
  }

  lemma {:induction false} SaneThroughout(c: Config, run: seq<State>, i: nat)
    requires i < |run| && Sane(c, run[0]) && forall j :: 0 < j < |run| ==> StaysSane(c, run, j)
    ensures Sane(c, run[i])
  {
    if i > 0 {
      SaneThroughout(c, run, i - 1);
      assert StaysSane(c, run, i);
    }
  }

  lemma ProgressStaysSane(c: Config, order: seq<Provider>, run: seq<State>, j: nat)
    requires WellFormed(c, order) && Undisturbed(c, run) && 0 < j < |run|
    ensures StaysSane(c, run, j)
  {
    assert ProgressAt(c, run, j);
    if Sane(c, run[j - 1]) {
      ProgressKeeps(c, order, run[j - 1], run[j]);
    }
  }

  lemma UndisturbedIsHealthy(c: Config, order: seq<Provider>, run: seq<State>, i: nat)
    requires WellFormed(c, order) && Undisturbed(c, run) && i < |run|
    ensures Inv(c, run[i]) && Healthy(run[i])
  {
    InitInv(c, order);
    forall j | 0 < j < |run| ensures StaysSane(c, run, j) {
      ProgressStaysSane(c, order, run, j);
    }
    SaneThroughout(c, run, i);
  }

  /** Errors have no other source: without a failing constructor or a cancelled context, a run
      that cannot be continued returns nil. */
  lemma UndisturbedReturnsNil(c: Config, order: seq<Provider>, run: seq<State>)
    requires WellFormed(c, order) && Undisturbed(c, run)
    requires Stuck(c, run[|run| - 1])
    ensures ReturnsNil(run[|run| - 1])
  {
    var last := run[|run| - 1];
    UndisturbedIsHealthy(c, order, run, |run| - 1);
    TasksAreKnown(c, order);
    StuckMeansFinished(c, order, last);
  }
}
