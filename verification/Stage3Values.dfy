// Whose value each cell of the resolution stage holds, and how a failure ends the stage.
module Stage3Values {
  import opened Graphs
  import opened Modules
  import opened Resolver
  import opened Stage3
  import opened Stage3Runs

  /** The provider that a cell is filled from. */
  predicate FilledFrom(c: Config, x: Cell, p: Provider) {
    match x
    case Placeholder(e) => e < |c.targets| && c.targets[e] == p
    case Slot(i) => i < |c.slots| && c.slots[i].member == p
  }

  lemma FillerOf(c: Config, order: seq<Provider>, s: State, x: Cell) returns (k: nat)
    requires WellFormed(c, order) && Inv(c, s) && History(s.sh, x) != []
    ensures k < |c.tasks| && x in Cells(c, c.tasks[k]) && TaskKnown(c, c.tasks[k])
    ensures FilledFrom(c, x, Subject(c, c.tasks[k])) && Subject(c, c.tasks[k]) in c.nodes
  {
    var t :| t in c.tasks && x in Cells(c, t);
    k :| 0 <= k < |c.tasks| && c.tasks[k] == t;
    SubjectsAreNodes(c, order, k);
  }

  /** In every reachable state, whatever fails: a cell holds one value, and unless its provider is
      overridden or was resolved eagerly this is the value of a constructor call that the log lists
      for that provider, under the very task that fills the cell. */
  lemma CellHoldsOwnCall(c: Config, order: seq<Provider>, run: seq<State>, i: nat, x: Cell)
    requires WellFormed(c, order) && Run(c, run) && i < |run| && History(run[i].sh, x) != []
    ensures exists p ::
              FilledFrom(c, x, p) && |History(run[i].sh, x)| == 1
              && HeldValueIs(c, run[i].sh, x, p, History(run[i].sh, x)[0])
  {
    RunInv(c, order, run, i);
    var k := FillerOf(c, order, run[i], x);
    TaskHoldsOwnCall(c, run[i], k, x);
  }

  ghost predicate HeldValueIs(c: Config, sh: Shared, x: Cell, p: Provider, v: Value) {
    if p in c.overrides then v == c.overrides[p]
    else if !IsTransient(p) && p in c.eager then v == c.eager[p]
    else
      && v.Made? && v.p == p && v.call < |sh.log|
      && sh.log[v.call] == if IsTransient(p) && x.Placeholder? then EdgeTask(x.e) else NodeTask(p)
  }

  lemma TaskHoldsOwnCall(c: Config, s: State, k: nat, x: Cell)
    requires Inv(c, s) && k < |c.tasks| && x in Cells(c, c.tasks[k]) && History(s.sh, x) != []
    ensures TaskKnown(c, c.tasks[k]) && |History(s.sh, x)| == 1
    ensures HeldValueIs(c, s.sh, x, Subject(c, c.tasks[k]), History(s.sh, x)[0])
  {
    assert TaskOk(c, s.sh, c.tasks[k], s.phase[k]);
    var w :| 0 <= w < |Cells(c, c.tasks[k])| && Cells(c, c.tasks[k])[w] == x;
  }

  /** In a run that returns nil every injection of a transient that is not overridden gets the value
      of a constructor call of its own: different injections hold different values. */
  lemma TransientsAreNotShared(c: Config, order: seq<Provider>, run: seq<State>, e: nat, f: nat)
    requires WellFormed(c, order) && Run(c, run) && ReturnsNil(run[|run| - 1])
    requires e < |c.targets| && f < |c.targets| && e != f && c.targets[e] == c.targets[f]
    requires IsTransient(c.targets[e]) && c.targets[e] !in c.overrides
    ensures var sh := run[|run| - 1].sh;
            && |History(sh, Placeholder(e))| == |History(sh, Placeholder(f))| == 1
            && History(sh, Placeholder(e)) != History(sh, Placeholder(f))
  {
    PlaceholdersWrittenOnce(c, order, run, e);
    PlaceholdersWrittenOnce(c, order, run, f);
    PlaceholderValue(c, order, run, e);
    PlaceholderValue(c, order, run, f);
  }

  lemma PlaceholderValue(c: Config, order: seq<Provider>, run: seq<State>, e: nat)
    requires WellFormed(c, order) && Run(c, run) && e < |c.targets| && History(run[|run| - 1].sh, Placeholder(e)) != []
    ensures var sh := run[|run| - 1].sh;
            |History(sh, Placeholder(e))| == 1
                && HeldValueIs(c, sh, Placeholder(e), c.targets[e], History(sh, Placeholder(e))[0])
  {
    CellHoldsOwnCall(c, order, run, |run| - 1, Placeholder(e));
  }

  /** All cells of a provider that is not transient hold one and the same value, in every reachable
      state, as far as they hold any. */
  lemma SingletonsAreShared(c: Config, order: seq<Provider>, run: seq<State>, i: nat, p: Provider, x: Cell, y: Cell)
    requires WellFormed(c, order) && Run(c, run) && i < |run| && !IsTransient(p)
    requires FilledFrom(c, x, p) && FilledFrom(c, y, p)
    requires History(run[i].sh, x) != [] && History(run[i].sh, y) != []
    ensures History(run[i].sh, x) == History(run[i].sh, y)
  {
    RunInv(c, order, run, i);
    var k := FillerOf(c, order, run[i], x);
    var j := FillerOf(c, order, run[i], y);
    TaskHoldsOwnCall(c, run[i], k, x);
    TaskHoldsOwnCall(c, run[i], j, y);
    LogHasOneCall(c, run[i], NodeTask(p), History(run[i].sh, x)[0], History(run[i].sh, y)[0]);
  }

  lemma LogHasOneCall(c: Config, s: State, t: Task, v: Value, w: Value)
    requires Inv(c, s)
    ensures v.Made? && w.Made? && CalledBy(s.sh, v.call, t) && CalledBy(s.sh, w.call, t) ==> v.call == w.call
  {
  }

  // ---- failures ----

  /** A goroutine that has returned an error has cancelled the others. */
  ghost predicate ErrorsCancel(s: State) {
    forall k :: 0 <= k < |s.phase| && s.phase[k].Finished? && s.phase[k].r.Bad? ==> s.sh.cancelled
  }

  lemma NextKeepsErrorsCancel(c: Config, s: State, s': State)
    requires ErrorsCancel(s) && Next(c, s, s')
    ensures ErrorsCancel(s') && (s.sh.cancelled ==> s'.sh.cancelled)
  {
    if k: nat, ch :| Enabled(c, s, k) && s' == Advance(c, s, k, ch) {
      forall j | 0 <= j < |s'.phase| && s'.phase[j].Finished? && s'.phase[j].r.Bad? ensures s'.sh.cancelled {
        assert j != k ==> s'.phase[j] == s.phase[j];
      }
    }
  }

  /** Once a goroutine has returned an error, the context is cancelled for the rest of the run. */
  lemma {:induction false} FailureCancels(c: Config, run: seq<State>, i: nat)
    requires Run(c, run) && i < |run|
    ensures ErrorsCancel(run[i])
  {
    if i == 0 {
    } else {
      FailureCancels(c, run, i - 1);
      assert NextAt(c, run, i);
      NextKeepsErrorsCancel(c, run[i - 1], run[i]);
    }
  }

  /** Under a cancelled context no provider's own goroutine goes on from its waits to construct. */
  lemma CancelledStartsNothing(c: Config, s: State, s': State, k: nat)
    requires Next(c, s, s') && s.sh.cancelled && k < |c.tasks| == |s.phase| && c.tasks[k].NodeTask?
    ensures |s'.phase| == |s.phase| && (s.phase[k].Waiting? ==> !s'.phase[k].Resolving? && !s'.phase[k].Constructing?)
  {
    if j: nat, ch :| Enabled(c, s, j) && s' == Advance(c, s, j, ch) {
      assert j != k ==> s'.phase[k] == s.phase[k];
    }
  }

  /** A constructor that fails keeps every continuation of the run from returning nil. */
  lemma FailedCallIsReported(c: Config, run: seq<State>, i: nat, k: nat, ch: Choice)
    requires Run(c, run) && 0 < i < |run| && Enabled(c, run[i - 1], k)
    requires run[i - 1].phase[k].Constructing? && ch.fails && run[i] == Advance(c, run[i - 1], k, ch)
    ensures !ReturnsNil(run[|run| - 1])
  {
    assert Failed(run[i].phase[k]);
    if ReturnsNil(run[|run| - 1]) {
      CleanThroughout(c, run, i);
    }
  }
}
