/** The builder over whole runs: what holds in every reachable state, that runs end, and how. */
module BuilderRuns {
  import opened Sequences
  import opened Rows
  import opened DivideAndConquer
  import opened SplitTree

  /** The invariant of every reachable state, whatever the splits look like. */
  ghost predicate Inv(cfg: Config, s: State, root: seq<Stored>) {
    && CountersAgree(cfg, s)
    && RowsConserved(s, root)
    && OnePerLeaf(s)
    && LeavesFit(cfg, s)
    && (s.collector.Finished? ==> s.closes > 0)
  }

  lemma InitInv(cfg: Config, root: seq<Stored>)
    requires ValidConfig(cfg)
    ensures Inv(cfg, Init(root), root)
  {
    var s := Init(root);
    InitCounters(cfg, root);
    assert s.tasks == [] + [s.tasks[0]];
    PendingAppend([], s.tasks[0]);
    assert Sent(s) == [];
  }

  lemma InitCounters(cfg: Config, root: seq<Stored>)
    requires ValidConfig(cfg)
    ensures CountersAgree(cfg, Init(root))
  {
    var task := Task(root, false, Waiting);
    assert Init(root).tasks == [] + [task];
  }

  lemma InvKept(cfg: Config, s: State, step: Step, root: seq<Stored>)
    requires ValidConfig(cfg) && Inv(cfg, s, root) && Enabled(cfg, s, step)
    ensures Inv(cfg, Next(cfg, s, step), root)
  {
    CountersKept(cfg, s, step);
    RowsKept(cfg, s, step, root);
    OnePerLeafKept(cfg, s, step);
    LeavesFitKept(cfg, s, step);
  }

  lemma {:induction false} RunKeepsInv(cfg: Config, s: State, steps: seq<Step>, s': State, root: seq<Stored>)
    requires ValidConfig(cfg) && Inv(cfg, s, root) && Run(cfg, s, steps, s')
    ensures Inv(cfg, s', root)
    decreases |steps|
  {
    if steps == [] {
    } else {
      InvKept(cfg, s, steps[0], root);
      RunKeepsInv(cfg, Next(cfg, s, steps[0]), steps[1..], s', root);
    }
  }

  /** Safety in every interleaving: the counter is the number of tasks not yet decremented plus
      the announced ones, at most `parallel` slots are in use, `Y` is closed at most once and only
      when every task is done, and a task about to send always finds it open. */
  lemma SafeAtEveryState(cfg: Config, root: seq<Stored>, steps: seq<Step>, s: State)
    requires ValidConfig(cfg) && Run(cfg, Init(root), steps, s)
    ensures s.counter == CountIf(s.tasks, Live) + CountIf(s.tasks, IsCounted)
    ensures CountIf(s.tasks, HoldsSlot) == s.slots <= cfg.parallel
    ensures s.closes <= 1
    ensures s.closes == 1 ==> s.counter == 0 && forall t :: 0 <= t < |s.tasks| ==> s.tasks[t].phase.Done?
    ensures forall t :: 0 <= t < |s.tasks| && s.tasks[t].phase.Sending? ==>
              s.closes == 0 && !s.collector.Finished?
    ensures PendingRows(s.tasks) + RowsOf(Sent(s)) == multiset(root)
  {
    InitInv(cfg, root);
    RunKeepsInv(cfg, Init(root), steps, s, root);
    CloseIsSafe(cfg, s);
  }

  /** Nothing but the slots holds a waiting task back, and nothing but the size and a cancellation decides
      between a leaf and a split, whatever the labels are. */
  lemma ChoicesAreFree(cfg: Config, s: State, t: nat, labels: seq<nat>)
    requires ValidConfig(cfg) && CountersAgree(cfg, s) && t < |s.tasks| && !s.crashed
    ensures Enabled(cfg, s, TaskStep(t, Acquire))
            <==> s.tasks[t].phase.Waiting? && CountIf(s.tasks, HoldsSlot) < cfg.parallel
    ensures s.tasks[t].phase.Running? ==>
              (Enabled(cfg, s, TaskStep(t, BecomeLeaf)) <==> s.cancelled || |s.tasks[t].rows| <= cfg.target)
    ensures s.tasks[t].phase.Running? && ValidLabels(s.tasks[t].rows, labels, Parts(cfg, |s.tasks[t].rows|)) ==>
              (Enabled(cfg, s, TaskStep(t, Split(labels))) <==> !s.cancelled && |s.tasks[t].rows| > cfg.target)
  {
  }

  // ----- progress

  /** Nothing is left to happen but a late cancellation. */
  ghost predicate Stuck(cfg: Config, s: State)
    requires ValidConfig(cfg)
  {
    forall step :: Enabled(cfg, s, step) ==> step.Cancel?
  }

  lemma TaskCanMove(cfg: Config, s: State, t: nat) returns (step: Step)
    requires ValidConfig(cfg) && !s.crashed && s.collector.Receiving?
    requires CountersAgree(cfg, s) && t < |s.tasks|
    requires HoldsSlot(s.tasks[t]) || s.tasks[t].phase.Released? || s.tasks[t].phase.Closing?
    requires s.tasks[t].phase.Counted? ==> s.tasks[t].phase.todo != []
    ensures Enabled(cfg, s, step) && !step.Cancel?
  {
    var task := s.tasks[t];
    match task.phase
    case Running =>
      if |task.rows| <= cfg.target || s.cancelled {
        step := TaskStep(t, BecomeLeaf);
      } else {
        var labels := seq(|task.rows|, i => 0);
        assert Parts(cfg, |task.rows|) >= 2;
        step := TaskStep(t, Split(labels));
      }
    case Sending => step := TaskStep(t, Send);
    case Spawning(todo) => step := TaskStep(t, if todo == [] then Return else Count);
    case Counted(todo) => step := TaskStep(t, Spawn);
    case Finishing =>
      CountMember(s.tasks, t, HoldsSlot);
      step := TaskStep(t, Release);
    case Released => step := TaskStep(t, Decrement);
    case Closing => step := TaskStep(t, Close);
  }

  /** `Add(1)` is only announced for a subset that is then started. */
  ghost predicate CountedHasNext(s: State) {
    forall t :: 0 <= t < |s.tasks| && s.tasks[t].phase.Counted? ==> s.tasks[t].phase.todo != []
  }

  lemma {:induction false} RunKeepsCounted(cfg: Config, s: State, steps: seq<Step>, s': State)
    requires ValidConfig(cfg) && CountedHasNext(s) && Run(cfg, s, steps, s')
    ensures CountedHasNext(s')
    decreases |steps|
  {
    if steps == [] {
    } else {
      RunKeepsCounted(cfg, Next(cfg, s, steps[0]), steps[1..], s');
    }
  }

  /** When every task waits or is done, the next one gets a slot or the channel is drained. */
  lemma RestCanMove(cfg: Config, s: State) returns (step: Step)
    requires ValidConfig(cfg) && !s.crashed && s.collector.Receiving? && CountersAgree(cfg, s)
    requires forall t :: 0 <= t < |s.tasks| ==> s.tasks[t].phase.Waiting? || s.tasks[t].phase.Done?
    ensures Enabled(cfg, s, step) && !step.Cancel?
  {
    if t: nat :| t < |s.tasks| && s.tasks[t].phase.Waiting? {
      CountNone(s.tasks, HoldsSlot);
      step := TaskStep(t, Acquire);
    } else {
      CountNone(s.tasks, Live);
      CountNone(s.tasks, IsClosing);
      step := Drain;
    }
  }

  /** No deadlock: a reachable state that has not crashed and is not final has an enabled step. */
  lemma Progress(cfg: Config, s: State, root: seq<Stored>) returns (step: Step)
    requires ValidConfig(cfg) && Inv(cfg, s, root) && CountedHasNext(s)
    requires !s.crashed && !Final(s)
    ensures Enabled(cfg, s, step) && !step.Cancel?
  {
    CloseIsSafe(cfg, s);
    if s.collector.Holding? {
      return Append;
    }
    if t: nat :| t < |s.tasks| && !s.tasks[t].phase.Waiting? && !s.tasks[t].phase.Done? {
      step := TaskCanMove(cfg, s, t);
    } else {
      step := RestCanMove(cfg, s);
    }
  }

  /** A final state is stuck. */
  lemma FinalIsStuck(cfg: Config, s: State)
    requires ValidConfig(cfg) && Final(s)
    ensures Stuck(cfg, s)
  {
  }

  // ----- full runs

  /** Every split of the run gives each of its centroids at least one row. */
  ghost predicate FullRun(cfg: Config, s: State, steps: seq<Step>, s': State)
    requires ValidConfig(cfg) && Run(cfg, s, steps, s')
    decreases |steps|
  {
    steps == []
    || (FullStep(cfg, s, steps[0]) && FullRun(cfg, Next(cfg, s, steps[0]), steps[1..], s'))
  }

  lemma {:induction false} FullRunBounds(cfg: Config, s: State, steps: seq<Step>, s': State)
    requires ValidConfig(cfg) && Run(cfg, s, steps, s') && FullRun(cfg, s, steps, s')
    requires RowsEverywhere(s) && !s.crashed
    ensures RowsEverywhere(s') && !s'.crashed
    ensures Sum(s'.tasks, Potential) <= Sum(s.tasks, Potential)
    ensures |steps| + StepsLeft(s') <= StepsLeft(s)
    decreases |steps|
  {
    if steps == [] {
    } else {
      RowsEverywhereKept(cfg, s, steps[0]);
      PotentialNeverGrows(cfg, s, steps[0]);
      StepsLeftDrops(cfg, s, steps[0]);
      FullRunBounds(cfg, Next(cfg, s, steps[0]), steps[1..], s');
    }
  }

  /** The recursion ends: N rows make at most 2N - 1 tasks and every run at most 20N - 8 steps. */
  lemma RunsAreBounded(cfg: Config, root: seq<Stored>, steps: seq<Step>, s: State)
    requires ValidConfig(cfg) && root != []
    requires Run(cfg, Init(root), steps, s) && FullRun(cfg, Init(root), steps, s)
    ensures !s.crashed
    ensures |s.tasks| <= 2 * |root| - 1
    ensures |steps| <= 20 * |root| - 8
  {
    var init := Init(root);
    SumOne(init.tasks[0], Potential);
    SumOne(init.tasks[0], Work);
    FullRunBounds(cfg, init, steps, s);
    SumBounds(s.tasks);
  }

  lemma SumOne(task: Task, f: Task -> int)
    ensures Sum([task], f) == f(task)
  {
    assert [task][..0] == [];
  }

  lemma {:induction false} SmallLeavesNeedMany(centroids: seq<Centroid>, target: nat)
    requires forall i :: 0 <= i < |centroids| ==> |centroids[i].rows| <= target
    ensures |RowsOf(centroids)| <= |centroids| * target
  {
    if centroids == [] {
    } else {
      var n := |centroids| - 1;
      SmallLeavesNeedMany(centroids[..n], target);
      OneMore(RowsOf(centroids[..n]), centroids[n].rows, n, target);
    }
  }

  lemma OneMore(collected: multiset<Stored>, rows: seq<Stored>, n: nat, target: nat)
    requires |collected| <= n * target && |rows| <= target
    ensures |collected + multiset(rows)| <= (n + 1) * target
  {
    assert |multiset(rows)| == |rows|;
  }

  /** What the caller has collected when `Y` is closed: one centroid for every leaf and no other,
      covering every row of the root file exactly once; and if nothing was cancelled, no leaf is
      larger than the target, so there are at least ceil(N / target) centroids. */
  ghost predicate Delivered(cfg: Config, s: State, root: seq<Stored>) {
    && s.closes == 1 && s.counter == 0 && s.slots == 0
    && RowsOf(s.received) == multiset(root)
    && (forall i, j :: 0 <= i < j < |s.received| ==> s.received[i].task != s.received[j].task)
    && (forall t: nat :: t < |s.tasks| && s.tasks[t].leaf ==>
          exists i :: 0 <= i < |s.received| && s.received[i] == Centroid(t, s.tasks[t].rows))
    && (forall i :: 0 <= i < |s.received| ==>
          s.received[i].task < |s.tasks| && s.tasks[s.received[i].task].leaf)
    && (!s.cancelled ==>
          && (forall i :: 0 <= i < |s.received| ==> |s.received[i].rows| <= cfg.target)
          && |s.received| * cfg.target >= |root|)
  }

  lemma FinalCounters(cfg: Config, s: State, root: seq<Stored>)
    requires ValidConfig(cfg) && Inv(cfg, s, root) && Final(s)
    ensures s.closes == 1 && s.counter == 0 && s.slots == 0
    ensures RowsOf(s.received) == multiset(root) && Sent(s) == s.received
  {
    CloseIsSafe(cfg, s);
    assert Sent(s) == s.received;
    CountNone(s.tasks, HoldsSlot);
    PendingNone(s.tasks);
  }

  lemma FinalDelivers(cfg: Config, s: State, root: seq<Stored>)
    requires ValidConfig(cfg) && Inv(cfg, s, root) && Final(s)
    ensures Delivered(cfg, s, root)
  {
    FinalCounters(cfg, s, root);
    forall i | 0 <= i < |s.received| ensures Accounted(s, s.received[i]) {
      assert Accounted(s, Sent(s)[i]);
    }
    forall t: nat | t < |s.tasks| && s.tasks[t].leaf
      ensures exists i :: 0 <= i < |s.received| && s.received[i] == Centroid(t, s.tasks[t].rows)
    {
      assert HasSent(s.tasks[t]) && SentFrom(s.received, t) == 1;
      var i := SomeCounted(s.received, FromTask(t));
      assert s.received[i] == Centroid(t, s.tasks[t].rows);
    }
    forall i, j | 0 <= i < j < |s.received| ensures s.received[i].task != s.received[j].task {
      assert SentFrom(s.received, s.received[i].task) <= 1;
      if s.received[i].task == s.received[j].task {
        CountTwo(s.received, i, j, FromTask(s.received[i].task));
      }
    }
    if !s.cancelled {
      SmallLeavesNeedMany(s.received, cfg.target);
      assert |multiset(root)| == |root|;
    }
  }

  /** A build whose splits are full runs to the end and delivers. */
  lemma FullRunDelivers(cfg: Config, root: seq<Stored>, steps: seq<Step>, s: State)
    requires ValidConfig(cfg) && root != []
    requires Run(cfg, Init(root), steps, s) && FullRun(cfg, Init(root), steps, s) && Stuck(cfg, s)
    ensures Final(s) && Delivered(cfg, s, root)
  {
    InitInv(cfg, root);
    RunKeepsInv(cfg, Init(root), steps, s, root);
    RunKeepsCounted(cfg, Init(root), steps, s);
    RunsAreBounded(cfg, root, steps, s);
    if !Final(s) {
      var step := Progress(cfg, s, root);
    }
    FinalDelivers(cfg, s, root);
  }

  // ----- empty subsets

  /** A file without rows exists and has not been opened yet, or was opened. */
  ghost predicate EmptyAround(s: State) {
    s.crashed || exists t :: 0 <= t < |s.tasks| && OwesEmpty(s.tasks[t])
  }

  ghost predicate OwesEmpty(task: Task) {
    || (task.phase.Waiting? && task.rows == [])
    || ((task.phase.Spawning? || task.phase.Counted?) && !NoEmpty(task.phase.todo))
  }

  lemma EmptyStays(cfg: Config, s: State, step: Step)
    requires ValidConfig(cfg) && Enabled(cfg, s, step) && EmptyAround(s)
    ensures EmptyAround(Next(cfg, s, step))
  {
    var s' := Next(cfg, s, step);
    var t :| 0 <= t < |s.tasks| && OwesEmpty(s.tasks[t]);
    if step.TaskStep? && step.t == t && step.act.Spawn? {
      var todo := s.tasks[t].phase.todo;
      if todo[0] == [] {
        assert OwesEmpty(s'.tasks[|s.tasks|]);
      } else {
        var i :| 0 <= i < |todo| && todo[i] == [];
        assert todo[1..][i - 1] == [];
        assert OwesEmpty(s'.tasks[t]);
      }
    } else if !s'.crashed {
      assert OwesEmpty(s'.tasks[t]);
    }
  }

  lemma {:induction false} NotFullLeavesEmpty(cfg: Config, s: State, steps: seq<Step>, s': State)
    requires ValidConfig(cfg) && Run(cfg, s, steps, s')
    requires EmptyAround(s) || !FullRun(cfg, s, steps, s')
    ensures EmptyAround(s')
    decreases |steps|
  {
    if steps == [] {
    } else {
      var next := Next(cfg, s, steps[0]);
      if EmptyAround(s) {
        EmptyStays(cfg, s, steps[0]);
      } else if !FullStep(cfg, s, steps[0]) {
        var t := steps[0].t;
        FullIffNoEmpty(s.tasks[t].rows, steps[0].act.labels, Parts(cfg, |s.tasks[t].rows|));
        assert OwesEmpty(next.tasks[t]);
      }
      NotFullLeavesEmpty(cfg, next, steps[1..], s');
    }
  }

  /** How a build ends. It always ends when every split is full; it delivers all centroids exactly
      when every split was full, and otherwise ends with the process crashed. */
  lemma BuildOutcome(cfg: Config, root: seq<Stored>, steps: seq<Step>, s: State)
    requires ValidConfig(cfg) && root != []
    requires Run(cfg, Init(root), steps, s) && Stuck(cfg, s)
    ensures FullRun(cfg, Init(root), steps, s) <==> Final(s) && !s.crashed && Delivered(cfg, s, root)
    ensures !FullRun(cfg, Init(root), steps, s) <==> s.crashed
  {
    InitInv(cfg, root);
    RunKeepsInv(cfg, Init(root), steps, s, root);
    RunKeepsCounted(cfg, Init(root), steps, s);
    if FullRun(cfg, Init(root), steps, s) {
      RunsAreBounded(cfg, root, steps, s);
      FullRunDelivers(cfg, root, steps, s);
    } else {
      NotFullLeavesEmpty(cfg, Init(root), steps, s);
      if !s.crashed {
        var t :| 0 <= t < |s.tasks| && OwesEmpty(s.tasks[t]);
        assert !Final(s);
        var step := Progress(cfg, s, root);
      }
    }
  }
}
