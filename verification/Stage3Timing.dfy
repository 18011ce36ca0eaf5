// Which placeholders are sure to be filled when the constructor of their owner starts: those of
// non-transient targets, and no others.
module Stage3Timing {
  import opened Graphs
  import opened Modules
  import opened Resolver
  import opened Stage3
  import opened Stage3Runs

  function Last(run: seq<State>): State
    requires run != []
  {
    run[|run| - 1]
  }

  const GO := Choice(false, false)

  lemma Extends(c: Config, run: seq<State>, k: nat) returns (longer: seq<State>)
    requires Undisturbed(c, run) && Enabled(c, Last(run), k)
    ensures Undisturbed(c, longer) && longer == run + [Advance(c, Last(run), k, GO)]
  {
    var s' := Advance(c, Last(run), k, GO);
    longer := run + [s'];
    assert Progress(c, Last(run), s');
    forall j | 0 < j < |longer| ensures ProgressAt(c, longer, j) {
      if j < |run| {
        assert ProgressAt(c, run, j);
      }
    }
  }

  lemma UndisturbedRuns(c: Config, run: seq<State>)
    requires Undisturbed(c, run)
    ensures Run(c, run)
  {
    forall j | 0 < j < |run| ensures NextAt(c, run, j) {
      assert ProgressAt(c, run, j);
    }
  }

  /** What holds at the end of an undisturbed run. */
  lemma EndIsHealthy(c: Config, order: seq<Provider>, run: seq<State>)
    requires WellFormed(c, order) && Undisturbed(c, run)
    ensures Inv(c, Last(run)) && Healthy(Last(run)) && AllKnown(c)
  {
    UndisturbedIsHealthy(c, order, run, |run| - 1);
    InvKnowsTasks(c, Last(run));
  }

  /** Below a blocked task some provider's own task can move. */
  lemma {:induction false} NodeCanMove(c: Config, order: seq<Provider>, s: State, k: nat) returns (j: nat)
    requires WellFormed(c, order) && Inv(c, s)
    requires k < |c.tasks| && TaskKnown(c, c.tasks[k]) && !s.phase[k].Finished? && !Enabled(c, s, k)
    ensures Enabled(c, s, j) && c.tasks[j].NodeTask?
    decreases Level(c, order, c.tasks[k])
  {
    j := BlockedByLower(c, order, s, k);
    if !Enabled(c, s, j) {
      j := NodeCanMove(c, order, s, j);
    }
  }

  /** The task is one that calls a constructor. */
  predicate Constructs(c: Config, t: Task)
    requires TaskKnown(c, t)
  {
    !Substituted(c, t) && !(t.NodeTask? && IsTransient(t.p))
  }

  predicate BeforeStart(ph: Phase) {
    ph.Waiting? || ph.Resolving?
  }

  /** In a healthy state one step takes a task that is before its start no further than to it. */
  lemma OneStep(c: Config, s: State, k: nat)
    requires Inv(c, s) && Healthy(s) && Enabled(c, s, k) && Constructs(c, c.tasks[k]) && BeforeStart(s.phase[k])
    ensures var s' := Advance(c, s, k, GO); s'.phase[k].Constructing? || BeforeStart(s'.phase[k])
  {
    assert TaskOk(c, s.sh, c.tasks[k], s.phase[k]);
  }

  /** These tasks serve injections and have not moved. */
  ghost predicate Idle(c: Config, s: State, tasks: set<nat>) {
    forall j :: j in tasks ==> j < |c.tasks| && j < |s.phase| && c.tasks[j].EdgeTask? && s.phase[j].Waiting?
  }

  /** A task that can move and is not idle: the given one, or a provider's task that it waits for. */
  lemma Mover(c: Config, order: seq<Provider>, s: State, k: nat, idle: set<nat>) returns (j: nat)
    requires WellFormed(c, order) && Inv(c, s) && k < |c.tasks| && TaskKnown(c, c.tasks[k]) && BeforeStart(s.phase[k])
    requires Idle(c, s, idle) && k !in idle
    ensures Enabled(c, s, j) && j !in idle
  {
    j := k;
    if !Enabled(c, s, k) {
      j := NodeCanMove(c, order, s, k);
    }
  }

  lemma MoveKeepsGoing(c: Config, s: State, j: nat, k: nat, idle: set<nat>)
    requires Inv(c, s) && Healthy(s) && Enabled(c, s, j) && j !in idle && Idle(c, s, idle)
    requires k < |c.tasks| && TaskKnown(c, c.tasks[k]) && Constructs(c, c.tasks[k]) && BeforeStart(s.phase[k])
    ensures var s' := Advance(c, s, j, GO);
            Idle(c, s', idle) && k < |s'.phase| && (s'.phase[k].Constructing? || BeforeStart(s'.phase[k]))
  {
    if j == k {
      OneStep(c, s, k);
    }
  }

  /** An undisturbed run that has not reached the start of task k, with some tasks idle. */
  ghost predicate OnTheWay(c: Config, run: seq<State>, k: nat, idle: set<nat>) {
    && Undisturbed(c, run) && |Last(run).phase| == |c.tasks| && k < |c.tasks| && k !in idle
    && BeforeStart(Last(run).phase[k]) && Idle(c, Last(run), idle)
  }

  ghost predicate Arrived(c: Config, run: seq<State>, k: nat, idle: set<nat>) {
    Undisturbed(c, run) && StartsAt(run, |run| - 1, k) && Idle(c, Last(run), idle)
  }

  /** One step brings such a run closer. */
  lemma SteerOnce(c: Config, order: seq<Provider>, run: seq<State>, k: nat, idle: set<nat>) returns (longer: seq<State>)
    requires WellFormed(c, order) && AllKnown(c) && OnTheWay(c, run, k, idle) && Constructs(c, c.tasks[k])
    ensures Arrived(c, longer, k, idle)
              || (OnTheWay(c, longer, k, idle) && Energy(c, Last(longer)) < Energy(c, Last(run)))
  {
    EndIsHealthy(c, order, run);
    var j := Mover(c, order, Last(run), k, idle);
    MoveKeepsGoing(c, Last(run), j, k, idle);
    AdvanceSpends(c, Last(run), j, GO);
    longer := Extends(c, run, j);
    EndIsHealthy(c, order, longer);
  }

  /** A run can be steered to the start of any constructor without ever moving the tasks of some
      given injections. */
  lemma {:induction false} SteerToStart(c: Config, order: seq<Provider>, run: seq<State>, k: nat, idle: set<nat>)
    returns (longer: seq<State>)
    requires WellFormed(c, order) && AllKnown(c) && OnTheWay(c, run, k, idle) && Constructs(c, c.tasks[k])
    ensures Arrived(c, longer, k, idle)
    decreases Energy(c, Last(run))
  {
    longer := SteerOnce(c, order, run, k, idle);
    if !Arrived(c, longer, k, idle) {
      longer := SteerToStart(c, order, longer, k, idle);
    }
  }

  lemma InitialRun(c: Config, order: seq<Provider>)
    requires WellFormed(c, order)
    ensures Undisturbed(c, [Init(c)]) && Inv(c, Init(c)) && AllKnown(c)
  {
    InitInv(c, order);
    InvKnowsTasks(c, Init(c));
  }

  /** A cell whose only task still waits is empty. */
  lemma WaitingIsEmpty(c: Config, s: State, k: nat)
    requires Inv(c, s) && k < |c.tasks| && c.tasks[k].EdgeTask? && s.phase[k].Waiting?
    ensures History(s.sh, Placeholder(c.tasks[k].e)) == []
  {
    var t := c.tasks[k];
    assert TaskOk(c, s.sh, t, s.phase[k]);
    assert Cells(c, t)[0] == Placeholder(t.e);
  }

  /** The injection is one of the provider whose constructor the task calls. */
  ghost predicate Injected(c: Config, e: nat, k: nat) {
    && e < |c.targets| && e < |c.edgeOwner| && k < |c.tasks| && TaskKnown(c, c.tasks[k])
    && c.edgeOwner[e] == ProviderOwner(Subject(c, c.tasks[k])) && Constructs(c, c.tasks[k])
  }

  /** No provider injects itself, so the task that serves an injection is not the owner's. */
  lemma ServedByAnother(c: Config, order: seq<Provider>, e: nat, k: nat) returns (late: nat)
    requires WellFormed(c, order) && Injected(c, e, k) && IsTransient(c.targets[e])
    ensures late < |c.tasks| && c.tasks[late] == EdgeTask(e) && late != k
  {
    assert EdgeTask(e) in c.tasks;
    late :| 0 <= late < |c.tasks| && c.tasks[late] == EdgeTask(e);
    SubjectsAreNodes(c, order, k);
    NoSelfDependency(c, order, c.targets[e]);
  }

  lemma NoSelfDependency(c: Config, order: seq<Provider>, p: Provider)
    requires WellFormed(c, order)
    ensures p !in Deps(c.graph, p)
  {
    assert p in Deps(c.graph, p) ==> p in order;
    TopologicalIsAcyclic(c.graph, order);
    assert p in Deps(c.graph, p) ==> ClosedWalk(c.graph, [p, p]);
  }

  /** For every injection of a transient provider and every constructor call of its owner, some
      run without a failure starts that constructor while the placeholder is still empty. */
  lemma TransientPlaceholderCanBeEmpty(c: Config, order: seq<Provider>, e: nat, k: nat) returns (run: seq<State>)
    requires WellFormed(c, order) && Injected(c, e, k) && IsTransient(c.targets[e])
    ensures Undisturbed(c, run) && StartsAt(run, |run| - 1, k) && History(Last(run).sh, Placeholder(e)) == []
  {
    var late := ServedByAnother(c, order, e, k);
    run := SteerFromInit(c, order, k, {late});
    WaitingIsEmpty(c, Last(run), late);
  }

  lemma SteerFromInit(c: Config, order: seq<Provider>, k: nat, idle: set<nat>) returns (run: seq<State>)
    requires WellFormed(c, order) && k < |c.tasks| && TaskKnown(c, c.tasks[k]) && Constructs(c, c.tasks[k])
               && k !in idle
    requires forall j :: j in idle ==> j < |c.tasks| && c.tasks[j].EdgeTask?
    ensures Arrived(c, run, k, idle) && Inv(c, Last(run))
  {
    InitialRun(c, order);
    InitIsIdle(c, k, idle);
    run := SteerToStart(c, order, [Init(c)], k, idle);
    EndIsHealthy(c, order, run);
  }

  lemma InitIsIdle(c: Config, k: nat, idle: set<nat>)
    requires k < |c.tasks| && forall j :: j in idle ==> j < |c.tasks| && c.tasks[j].EdgeTask?
    ensures |Init(c).phase| == |c.tasks| && BeforeStart(Init(c).phase[k]) && Idle(c, Init(c), idle)
  {
  }

  /** Every undisturbed run can be carried on to one that returns nil. */
  lemma {:induction false} CarryOn(c: Config, order: seq<Provider>, run: seq<State>) returns (longer: seq<State>)
    requires WellFormed(c, order) && AllKnown(c) && Undisturbed(c, run) && Inv(c, Last(run))
    ensures Undisturbed(c, longer) && run <= longer && ReturnsNil(Last(longer))
    decreases Energy(c, Last(run))
  {
    if Stuck(c, Last(run)) {
      UndisturbedReturnsNil(c, order, run);
      return run;
    }
    var k: nat :| Enabled(c, Last(run), k);
    AdvanceSpends(c, Last(run), k, GO);
    longer := Extends(c, run, k);
    EndIsHealthy(c, order, longer);
    longer := CarryOn(c, order, longer);
  }

  /** Whenever the constructor call of task k starts in a run that returns nil, the placeholder of
      injection e has been filled. */
  ghost predicate AlwaysFilled(c: Config, e: nat, k: nat) {
    forall run: seq<State>, i: nat :: Run(c, run) && ReturnsNil(Last(run)) && StartsAt(run, i, k) ==>
        History(run[i].sh, Placeholder(e)) != []
  }

  ghost predicate StartsAt(run: seq<State>, i: nat, k: nat) {
    i < |run| && k < |run[i].phase| && run[i].phase[k].Constructing?
  }

  /** A constructor can count on an injected placeholder if and only if the provider behind it is
      not transient and no override of another type stands in for it. */
  lemma FilledBeforeStartIff(c: Config, order: seq<Provider>, e: nat, k: nat)
    requires WellFormed(c, order) && Injected(c, e, k)
    ensures AlwaysFilled(c, e, k) <==> !IsTransient(c.targets[e]) && Takes(c, Placeholder(e), c.targets[e])
  {
    if !IsTransient(c.targets[e]) && Takes(c, Placeholder(e), c.targets[e]) {
      forall run: seq<State>, i: nat | Run(c, run) && ReturnsNil(Last(run)) && StartsAt(run, i, k)
        ensures History(run[i].sh, Placeholder(e)) != [] {
        FilledAtStart(c, order, run, i, e, k);
      }
    } else {
      var run := EmptyStart(c, order, e, k);
    }
  }

  lemma FilledAtStart(c: Config, order: seq<Provider>, run: seq<State>, i: nat, e: nat, k: nat)
    requires WellFormed(c, order) && Injected(c, e, k) && !IsTransient(c.targets[e])
               && Takes(c, Placeholder(e), c.targets[e])
    requires Run(c, run) && ReturnsNil(Last(run)) && StartsAt(run, i, k)
    ensures History(run[i].sh, Placeholder(e)) != []
  {
    SuppliedBeforeConstruction(c, order, run, i, k);
    RunInv(c, order, run, i);
    CleanThroughout(c, run, i);
    SubjectsAreNodes(c, order, k);
    assert PlaceholderSupplied(c, run[i].sh, Subject(c, c.tasks[k]), e);
    DependencyFilled(c, order, run[i], k, c.targets[e], Placeholder(e));
    AcceptsArrivingIff(c, Placeholder(e), c.targets[e], run[i].sh.resolved[c.targets[e]]);
  }

  /** Otherwise some run that returns nil starts the constructor with an empty placeholder. */
  lemma EmptyStart(c: Config, order: seq<Provider>, e: nat, k: nat) returns (run: seq<State>)
    requires WellFormed(c, order) && Injected(c, e, k)
    requires IsTransient(c.targets[e]) || !Takes(c, Placeholder(e), c.targets[e])
    ensures Run(c, run) && ReturnsNil(Last(run)) && !AlwaysFilled(c, e, k)
  {
    var start: seq<State>;
    if IsTransient(c.targets[e]) {
      start := TransientPlaceholderCanBeEmpty(c, order, e, k);
    } else {
      start := SteerFromInit(c, order, k, {});
      RefusedStaysEmpty(c, order, start, e);
    }
    EndIsHealthy(c, order, start);
    run := CarryOn(c, order, start);
    UndisturbedRuns(c, run);
    assert run[|start| - 1] == Last(start);
    assert StartsAt(run, |start| - 1, k);
  }

  lemma RefusedStaysEmpty(c: Config, order: seq<Provider>, run: seq<State>, e: nat)
    requires WellFormed(c, order) && Undisturbed(c, run) && e < |c.targets| && !Takes(c, Placeholder(e), c.targets[e])
    ensures History(Last(run).sh, Placeholder(e)) == []
  {
    EndIsHealthy(c, order, run);
    forall k | 0 <= k < |c.tasks| && Placeholder(e) in Cells(c, c.tasks[k])
        && History(Last(run).sh, Placeholder(e)) != []
      ensures false {
      CellTakes(c, Last(run), k, Placeholder(e));
    }
  }
}
