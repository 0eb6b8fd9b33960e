/** The goroutines of the index builder as a transition system.

    Every task waits for a slot of the `queue` channel, then either sends the centroid of its
    rows on `Y` or splits its rows and starts one task a subset. The atomic counter, the slot
    channel and the closing of `Y` are touched in separate steps, as in the code, so every
    interleaving of tasks and collector is a run of this system. */
module DivideAndConquer {
  import opened Constants
  import opened Sequences
  import opened Rows

  /** `parallel` is max(1, number of processors) and `target` the wanted subset size. */
  datatype Config = Config(parallel: nat, target: nat)

  predicate ValidConfig(cfg: Config) { cfg.parallel >= 1 && cfg.target >= 1 }

  datatype Phase =
    | Waiting                          // before `queue <-`
    | Running                          // slot taken, rows opened
    | Sending                          // at `Y <- centroid`
    | Spawning(todo: seq<seq<Stored>>)    // before `Add(1)` of the next subset
    | Counted(todo: seq<seq<Stored>>)     // `Add(1)` done, goroutine of todo[0] not started
    | Finishing                        // deferred function entered, slot still taken
    | Released                         // slot returned, before `Add(-1)`
    | Closing                          // `Add(-1)` returned at most 0
    | Done

  datatype Task = Task(rows: seq<Stored>, leaf: bool, phase: Phase)

  /** What a leaf puts on `Y`: the centroid of its rows, named by the task and those rows. */
  datatype Centroid = Centroid(task: nat, rows: seq<Stored>)

  /** The receiving loop of the caller. */
  datatype Collector = Receiving | Holding(item: Centroid) | Finished

  datatype State = State(tasks: seq<Task>, counter: int, slots: nat, collector: Collector,
                         received: seq<Centroid>, closes: nat, cancelled: bool, crashed: bool)

  /** What a task does next. */
  datatype Action =
    | Acquire | BecomeLeaf | Split(labels: seq<nat>) | Count | Spawn | Return
    | Send | Release | Decrement | Close

  datatype Step =
    | TaskStep(t: nat, act: Action)
    | Append
    | Drain
    | Cancel

  function Init(rows: seq<Stored>): State {
    State([Task(rows, false, Waiting)], 1, 0, Receiving, [], 0, false, false)
  }

  // ----- splitting

  /** How many centroids the clustering returns for `n` rows. */
  function Parts(cfg: Config, n: nat): nat
    requires ValidConfig(cfg)
  {
    Min(Min(SPLIT_SIZE, Max(2, n / cfg.target)), Min(n, SAMPLE_SIZE))
  }

  /** One subset for each target the file holds, but never fewer than two or more than five. */
  ghost predicate IsPartCount(parts: nat, target: nat, n: nat) {
    && (n < 3 * target ==> parts == 2)
    && (3 * target <= n < 4 * target ==> parts == 3)
    && (4 * target <= n < 5 * target ==> parts == 4)
    && (5 * target <= n ==> parts == 5)
  }

  lemma PartsOfSize(cfg: Config, n: nat)
    requires ValidConfig(cfg) && n > cfg.target
    ensures IsPartCount(Parts(cfg, n), cfg.target, n)
  {
    QuotientBetween(n, cfg.target, n / cfg.target);
  }

  lemma QuotientBetween(n: nat, target: nat, q: nat)
    requires target > 0 && q == n / target
    ensures n < 3 * target ==> q <= 2
    ensures 3 * target <= n < 4 * target ==> q == 3
    ensures 4 * target <= n < 5 * target ==> q == 4
    ensures 5 * target <= n ==> q >= 5
  {
    var r := n % target;
    assert n == q * target + r && 0 <= r < target;
    if q >= 5 {
      MoreTargets(5, q, target);
    } else {
      assert q == 0 || q == 1 || q == 2 || q == 3 || q == 4;
    }
  }

  lemma MoreTargets(a: nat, b: nat, target: nat)
    requires a <= b
    ensures a * target <= b * target
  {
  }

  /** The rows of each centroid, in file order. */
  function Subsets(rows: seq<Stored>, labels: seq<nat>, parts: nat): seq<seq<Stored>>
    requires |rows| == |labels|
  {
    seq(parts, part requires 0 <= part => Subset(rows, labels, part))
  }

  ghost predicate ValidLabels(rows: seq<Stored>, labels: seq<nat>, parts: nat) {
    |labels| == |rows| && forall i :: 0 <= i < |labels| ==> labels[i] < parts
  }

  // ----- steps

  /** When the task can perform the action; whether `counter` allows it is not asked. */
  ghost predicate CanAct(cfg: Config, s: State, task: Task, act: Action)
    requires ValidConfig(cfg)
  {
    match act
    case Acquire => task.phase.Waiting? && s.slots < cfg.parallel
    case BecomeLeaf => task.phase.Running? && (|task.rows| <= cfg.target || s.cancelled)
    case Split(labels) =>
      && task.phase.Running? && |task.rows| > cfg.target && !s.cancelled
      && ValidLabels(task.rows, labels, Parts(cfg, |task.rows|))
    case Count => task.phase.Spawning? && task.phase.todo != []
    case Spawn => task.phase.Counted? && task.phase.todo != []
    case Return => task.phase.Spawning? && task.phase.todo == []
    case Send => task.phase.Sending? && s.collector.Receiving?
    case Release => task.phase.Finishing? && s.slots > 0
    case Decrement => task.phase.Released?
    case Close => task.phase.Closing?
  }

  /** The task after the action. */
  ghost function After(cfg: Config, s: State, task: Task, act: Action): Task
    requires ValidConfig(cfg) && CanAct(cfg, s, task, act)
  {
    match act
    case Acquire => task.(phase := Running)
    case BecomeLeaf => task.(leaf := true, phase := Sending)
    case Split(labels) => task.(phase := Spawning(Subsets(task.rows, labels, Parts(cfg, |task.rows|))))
    case Count => task.(phase := Counted(task.phase.todo))
    case Spawn => task.(phase := Spawning(task.phase.todo[1..]))
    case Return => task.(phase := Finishing)
    case Send => task.(phase := Finishing)
    case Release => task.(phase := Released)
    case Decrement => task.(phase := if s.counter - 1 <= 0 then Closing else Done)
    case Close => task.(phase := Done)
  }

  /** The tasks started by the action. */
  ghost function Started(cfg: Config, s: State, task: Task, act: Action): seq<Task>
    requires ValidConfig(cfg) && CanAct(cfg, s, task, act)
  {
    if act.Spawn? then [Task(task.phase.todo[0], false, Waiting)] else []
  }

  ghost predicate Enabled(cfg: Config, s: State, step: Step)
    requires ValidConfig(cfg)
  {
    && !s.crashed
    && match step
       case TaskStep(t, act) => t < |s.tasks| && CanAct(cfg, s, s.tasks[t], act)
       case Append => s.collector.Holding?
       case Drain => s.collector.Receiving? && s.closes > 0
       case Cancel => !s.cancelled
  }

  /** One step. Opening a file without rows indexes an empty list of centroids, which ends the
      process. */
  ghost function Next(cfg: Config, s: State, step: Step): State
    requires ValidConfig(cfg) && Enabled(cfg, s, step)
  {
    match step
    case TaskStep(t, act) =>
      var task := s.tasks[t];
      State(s.tasks[t := After(cfg, s, task, act)] + Started(cfg, s, task, act),
            s.counter + (if act.Count? then 1 else if act.Decrement? then -1 else 0),
            if act.Acquire? then s.slots + 1 else if act.Release? then s.slots - 1 else s.slots,
            if act.Send? then Holding(Centroid(t, task.rows)) else s.collector,
            s.received,
            if act.Close? then s.closes + 1 else s.closes,
            s.cancelled,
            act.Acquire? && task.rows == [])
    case Append => s.(collector := Receiving, received := s.received + [s.collector.item])
    case Drain => s.(collector := Finished)
    case Cancel => s.(cancelled := true)
  }

  /** `s'` is reached from `s` by taking `steps` in order. */
  ghost predicate Run(cfg: Config, s: State, steps: seq<Step>, s': State)
    requires ValidConfig(cfg)
    decreases |steps|
  {
    if steps == [] then s' == s
    else Enabled(cfg, s, steps[0]) && Run(cfg, Next(cfg, s, steps[0]), steps[1..], s')
  }

  ghost predicate Final(s: State) {
    s.collector.Finished? && forall t :: 0 <= t < |s.tasks| ==> s.tasks[t].phase.Done?
  }

  // ----- counting tasks

  predicate Live(task: Task) { !task.phase.Closing? && !task.phase.Done? }

  predicate HoldsSlot(task: Task) {
    task.phase.Running? || task.phase.Sending? || task.phase.Spawning? || task.phase.Counted?
    || task.phase.Finishing?
  }

  predicate IsCounted(task: Task) { task.phase.Counted? }

  predicate IsClosing(task: Task) { task.phase.Closing? }

  // ----- counter, slots and close

  /** The counter is the number of tasks not yet decremented plus the increments whose goroutine
      is not started; slots in use are the tasks holding one; and `Y` is closed, or about to be,
      by exactly one task once no task is live. */
  ghost predicate CountersAgree(cfg: Config, s: State) {
    && |s.tasks| > 0
    && s.counter == CountIf(s.tasks, Live) + CountIf(s.tasks, IsCounted)
    && s.slots == CountIf(s.tasks, HoldsSlot) <= cfg.parallel
    && s.closes + CountIf(s.tasks, IsClosing) == (if CountIf(s.tasks, Live) == 0 then 1 else 0)
  }

  lemma CountAfter(cfg: Config, s: State, t: nat, act: Action, p: Task -> bool)
    requires ValidConfig(cfg) && Enabled(cfg, s, TaskStep(t, act))
    ensures var started := Started(cfg, s, s.tasks[t], act);
      CountIf(Next(cfg, s, TaskStep(t, act)).tasks, p)
      == CountIf(s.tasks, p) - Ind(p(s.tasks[t])) + Ind(p(After(cfg, s, s.tasks[t], act)))
         + (if started == [] then 0 else Ind(p(started[0])))
  {
    var task' := After(cfg, s, s.tasks[t], act);
    var tasks' := s.tasks[t := task'];
    CountUpdate(s.tasks, t, task', p);
    if act.Spawn? {
    } else {
      assert tasks' + [] == tasks';
    }
  }

  lemma CountersKept(cfg: Config, s: State, step: Step)
    requires ValidConfig(cfg) && CountersAgree(cfg, s) && Enabled(cfg, s, step)
    ensures CountersAgree(cfg, Next(cfg, s, step))
  {
    if step.TaskStep? {
      var TaskStep(t, act) := step;
      CountAfter(cfg, s, t, act, Live);
      CountAfter(cfg, s, t, act, IsCounted);
      CountAfter(cfg, s, t, act, HoldsSlot);
      CountAfter(cfg, s, t, act, IsClosing);
      if Live(s.tasks[t]) {
        CountMember(s.tasks, t, Live);
      }
      CountLe(Next(cfg, s, step).tasks, IsCounted, Live);
    }
  }

  /** What the counters say about the channel: it is closed at most once, only after the last
      task decremented, and never while a task may still send on it or start another one. */
  lemma CloseIsSafe(cfg: Config, s: State)
    requires ValidConfig(cfg) && CountersAgree(cfg, s)
    ensures s.closes <= 1
    ensures s.closes == 1 ==> forall t :: 0 <= t < |s.tasks| ==> s.tasks[t].phase.Done?
    ensures forall t :: 0 <= t < |s.tasks| && !s.tasks[t].phase.Done? ==> s.closes == 0
    ensures s.closes == 1 ==> s.counter == 0
    ensures s.slots <= cfg.parallel
  {
    CountLe(s.tasks, IsCounted, Live);
    forall t | 0 <= t < |s.tasks| && !s.tasks[t].phase.Done?
      ensures s.closes == 0
    {
      if s.tasks[t].phase.Closing? {
        CountMember(s.tasks, t, IsClosing);
      } else {
        CountMember(s.tasks, t, Live);
      }
    }
  }
}
