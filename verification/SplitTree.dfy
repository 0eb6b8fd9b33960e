/** What the tasks do with the rows: nothing is lost or doubled on the way from the root file to
    the centroids the caller collects, and the recursion ends. */
module SplitTree {
  import opened Constants
  import opened Sequences
  import opened Rows
  import opened DivideAndConquer

  // ----- one split

  lemma {:induction false} FlattenEmpties(parts: seq<seq<Stored>>)
    requires forall i :: 0 <= i < |parts| ==> parts[i] == []
    ensures Flatten(parts) == []
  {
    if parts == [] {
    } else {
      FlattenEmpties(parts[1..]);
    }
  }

  lemma {:induction false} FlattenUpdate(parts: seq<seq<Stored>>, i: nat, x: Stored)
    requires i < |parts|
    ensures multiset(Flatten(parts[i := parts[i] + [x]])) == multiset(Flatten(parts)) + multiset{x}
  {
    var parts' := parts[i := parts[i] + [x]];
    if i == 0 {
      assert parts'[1..] == parts[1..];
    } else {
      FlattenUpdate(parts[1..], i - 1, x);
      assert parts'[1..] == parts[1..][i - 1 := parts[1..][i - 1] + [x]];
    }
  }

  /** Writing one more row appends it to the subset of its label. */
  lemma SubsetsSnoc(rows: seq<Stored>, labels: seq<nat>, parts: nat, row: Stored, part: nat)
    requires |rows| == |labels| && part < parts
    ensures var before := Subsets(rows, labels, parts);
      Subsets(rows + [row], labels + [part], parts) == before[part := before[part] + [row]]
  {
    assert (rows + [row])[..|rows|] == rows;
    assert (labels + [part])[..|rows|] == labels;
    var before := Subsets(rows, labels, parts);
    var after := Subsets(rows + [row], labels + [part], parts);
    forall p: nat | p < parts
      ensures after[p] == before[part := before[part] + [row]][p]
    {
      assert after[p] == Subset(rows + [row], labels + [part], p);
      assert before[p] == Subset(rows, labels, p);
    }
  }

  /** The subsets of a split hold exactly the rows of the file. */
  lemma {:induction false} SubsetsConserve(rows: seq<Stored>, labels: seq<nat>, parts: nat)
    requires ValidLabels(rows, labels, parts)
    ensures multiset(Flatten(Subsets(rows, labels, parts))) == multiset(rows)
    ensures |Flatten(Subsets(rows, labels, parts))| == |rows|
  {
    if rows == [] {
      FlattenEmpties(Subsets(rows, labels, parts));
    } else {
      var n := |rows| - 1;
      var rows', labels' := rows[..n], labels[..n];
      assert rows == rows' + [rows[n]] && labels == labels' + [labels[n]];
      assert labels[n] < parts && ValidLabels(rows', labels', parts);
      SubsetsConserve(rows', labels', parts);
      RowIsWritten(rows', labels', parts, rows[n], labels[n]);
    }
    SameSize(Flatten(Subsets(rows, labels, parts)), rows);
  }

  lemma RowIsWritten(rows: seq<Stored>, labels: seq<nat>, parts: nat, row: Stored, part: nat)
    requires |rows| == |labels| && part < parts
    ensures multiset(Flatten(Subsets(rows + [row], labels + [part], parts)))
         == multiset(Flatten(Subsets(rows, labels, parts))) + multiset{row}
  {
    SubsetsSnoc(rows, labels, parts, row, part);
    FlattenUpdate(Subsets(rows, labels, parts), part, row);
  }

  lemma SameSize(a: seq<Stored>, b: seq<Stored>)
    requires multiset(a) == multiset(b)
    ensures |a| == |b|
  {
    assert |multiset(a)| == |multiset(b)|;
  }

  /** Every centroid is the nearest one of some row. */
  ghost predicate Full(labels: seq<nat>, parts: nat) {
    forall part: nat :: part < parts ==> part in labels
  }

  lemma {:induction false} SubsetEmptyIff(rows: seq<Stored>, labels: seq<nat>, part: nat)
    requires |rows| == |labels|
    ensures Subset(rows, labels, part) == [] <==> part !in labels
  {
    if rows == [] {
    } else {
      var n := |rows| - 1;
      SubsetEmptyIff(rows[..n], labels[..n], part);
      assert labels == labels[..n] + [labels[n]];
    }
  }

  ghost predicate NoEmpty(parts: seq<seq<Stored>>) {
    forall i :: 0 <= i < |parts| ==> parts[i] != []
  }

  lemma FullIffNoEmpty(rows: seq<Stored>, labels: seq<nat>, parts: nat)
    requires |rows| == |labels|
    ensures Full(labels, parts) <==> NoEmpty(Subsets(rows, labels, parts))
  {
    var subsets := Subsets(rows, labels, parts);
    forall part: nat | part < parts
      ensures part in labels <==> subsets[part] != []
    {
      SubsetEmptyIff(rows, labels, part);
    }
    if NoEmpty(subsets) {
      forall part: nat | part < parts ensures part in labels {
        assert subsets[part] != [];
      }
    }
  }

  lemma {:induction false} FlattenAtLeast(parts: seq<seq<Stored>>)
    requires NoEmpty(parts)
    ensures |Flatten(parts)| >= |parts|
  {
    if parts == [] {
    } else {
      FlattenAtLeast(parts[1..]);
    }
  }

  lemma {:induction false} PartAtMost(parts: seq<seq<Stored>>, i: nat)
    requires NoEmpty(parts) && i < |parts|
    ensures |parts[i]| + |parts| - 1 <= |Flatten(parts)|
  {
    FlattenAtLeast(parts[1..]);
    if i == 0 {
    } else {
      PartAtMost(parts[1..], i - 1);
    }
  }

  /** A full split makes between 2 and SPLIT_SIZE subsets, each strictly smaller than the file. */
  lemma SplitShrinks(cfg: Config, rows: seq<Stored>, labels: seq<nat>)
    requires ValidConfig(cfg) && |rows| > cfg.target
    requires ValidLabels(rows, labels, Parts(cfg, |rows|)) && Full(labels, Parts(cfg, |rows|))
    ensures var subsets := Subsets(rows, labels, Parts(cfg, |rows|));
      && 2 <= |subsets| <= SPLIT_SIZE
      && forall i :: 0 <= i < |subsets| ==> 0 < |subsets[i]| < |rows|
  {
    var subsets := Subsets(rows, labels, Parts(cfg, |rows|));
    SubsetsConserve(rows, labels, Parts(cfg, |rows|));
    FullIffNoEmpty(rows, labels, Parts(cfg, |rows|));
    forall i | 0 <= i < |subsets| ensures 0 < |subsets[i]| < |rows| {
      PartAtMost(subsets, i);
    }
  }

  /** Rows that all have the same nearest centroid, as identical rows have, cannot be split. */
  lemma SameLabelIsNotFull(cfg: Config, rows: seq<Stored>, labels: seq<nat>)
    requires ValidConfig(cfg) && |rows| > cfg.target
    requires ValidLabels(rows, labels, Parts(cfg, |rows|))
    requires forall i, j :: 0 <= i < j < |labels| ==> labels[i] == labels[j]
    ensures !Full(labels, Parts(cfg, |rows|))
  {
    var other: nat := if labels[0] == 0 then 1 else 0;
    assert other !in labels;
  }

  // ----- rows under way

  /** Rows a task still has to pass on. */
  function Pending(task: Task): seq<Stored> {
    if task.phase.Spawning? || task.phase.Counted? then Flatten(task.phase.todo)
    else if task.phase.Waiting? || task.phase.Running? || task.phase.Sending? then task.rows
    else []
  }

  ghost function PendingRows(tasks: seq<Task>): multiset<Stored> {
    if tasks == [] then multiset{}
    else PendingRows(tasks[..|tasks| - 1]) + multiset(Pending(tasks[|tasks| - 1]))
  }

  /** Centroids sent so far, in order. */
  function Sent(s: State): seq<Centroid> {
    s.received + if s.collector.Holding? then [s.collector.item] else []
  }

  ghost function RowsOf(centroids: seq<Centroid>): multiset<Stored> {
    if centroids == [] then multiset{}
    else RowsOf(centroids[..|centroids| - 1]) + multiset(centroids[|centroids| - 1].rows)
  }

  lemma {:induction false} PendingUpdate(tasks: seq<Task>, t: nat, task: Task)
    requires t < |tasks|
    ensures PendingRows(tasks[t := task]) + multiset(Pending(tasks[t]))
         == PendingRows(tasks) + multiset(Pending(task))
  {
    var n := |tasks| - 1;
    if t == n {
      assert tasks[t := task][..n] == tasks[..n];
    } else {
      PendingUpdate(tasks[..n], t, task);
      assert tasks[t := task][..n] == tasks[..n][t := task];
      AddLast(PendingRows(tasks[..n][t := task]), multiset(Pending(tasks[t])),
              PendingRows(tasks[..n]), multiset(Pending(task)), multiset(Pending(tasks[n])));
    }
  }

  lemma AddLast(a: multiset<Stored>, b: multiset<Stored>, c: multiset<Stored>, d: multiset<Stored>, e: multiset<Stored>)
    requires a + b == c + d
    ensures a + e + b == c + e + d
  {
    assert a + e + b == (a + b) + e;
    assert c + e + d == (c + d) + e;
  }

  lemma PendingAppend(tasks: seq<Task>, task: Task)
    ensures PendingRows(tasks + [task]) == PendingRows(tasks) + multiset(Pending(task))
  {
    assert (tasks + [task])[..|tasks|] == tasks;
  }

  lemma {:induction false} PendingNone(tasks: seq<Task>)
    requires forall t :: 0 <= t < |tasks| ==> Pending(tasks[t]) == []
    ensures PendingRows(tasks) == multiset{}
  {
    if tasks == [] {
    } else {
      PendingNone(tasks[..|tasks| - 1]);
    }
  }

  ghost predicate RowsConserved(s: State, root: seq<Stored>) {
    PendingRows(s.tasks) + RowsOf(Sent(s)) == multiset(root)
  }

  function Leaving(task: Task, act: Action): seq<Stored> {
    if act.Spawn? && task.phase.Counted? && task.phase.todo != [] then task.phase.todo[0]
    else if act.Send? then task.rows
    else []
  }

  /** Rows leave a task either for a started task or for the sent list. */
  lemma ActionMovesRows(cfg: Config, s: State, task: Task, act: Action)
    requires ValidConfig(cfg) && CanAct(cfg, s, task, act) && !act.Split?
    ensures Pending(task) == Leaving(task, act) + Pending(After(cfg, s, task, act))
  {
  }

  /** A split rearranges them. */
  lemma SplitMovesRows(cfg: Config, s: State, task: Task, act: Action)
    requires ValidConfig(cfg) && CanAct(cfg, s, task, act) && act.Split?
    ensures multiset(Pending(task)) == multiset(Pending(After(cfg, s, task, act)))
  {
    SubsetsConserve(task.rows, act.labels, Parts(cfg, |task.rows|));
  }

  lemma TaskGivesRows(cfg: Config, s: State, t: nat, act: Action)
    requires ValidConfig(cfg) && Enabled(cfg, s, TaskStep(t, act))
    ensures PendingRows(s.tasks[t := After(cfg, s, s.tasks[t], act)]) + multiset(Leaving(s.tasks[t], act))
         == PendingRows(s.tasks)
  {
    var task, task' := s.tasks[t], After(cfg, s, s.tasks[t], act);
    PendingUpdate(s.tasks, t, task');
    var after, before := PendingRows(s.tasks[t := task']), PendingRows(s.tasks);
    if act.Split? {
      SplitMovesRows(cfg, s, task, act);
    } else {
      ActionMovesRows(cfg, s, task, act);
    }
    assert multiset(Pending(task)) == multiset(Leaving(task, act)) + multiset(Pending(task'));
    Moved(after, multiset(Pending(task')), before, multiset(Leaving(task, act)));
  }

  lemma StartedTakesRows(cfg: Config, s: State, task: Task, act: Action, tasks: seq<Task>)
    requires ValidConfig(cfg) && CanAct(cfg, s, task, act)
    ensures PendingRows(tasks + Started(cfg, s, task, act))
         == PendingRows(tasks) + (if act.Spawn? then multiset(Leaving(task, act)) else multiset{})
  {
    var started := Started(cfg, s, task, act);
    if act.Spawn? {
      PendingAppend(tasks, started[0]);
    } else {
      assert tasks + started == tasks;
    }
  }

  lemma TasksKeepRows(cfg: Config, s: State, t: nat, act: Action)
    requires ValidConfig(cfg) && Enabled(cfg, s, TaskStep(t, act))
    ensures PendingRows(s.tasks)
         == PendingRows(Next(cfg, s, TaskStep(t, act)).tasks)
            + (if act.Send? then multiset(s.tasks[t].rows) else multiset{})
  {
    TaskGivesRows(cfg, s, t, act);
    StartedTakesRows(cfg, s, s.tasks[t], act, s.tasks[t := After(cfg, s, s.tasks[t], act)]);
  }

  lemma SentGrows(cfg: Config, s: State, step: Step)
    requires ValidConfig(cfg) && Enabled(cfg, s, step)
    ensures RowsOf(Sent(Next(cfg, s, step)))
         == RowsOf(Sent(s))
            + (if step.TaskStep? && step.act.Send? then multiset(s.tasks[step.t].rows) else multiset{})
  {
    if step.TaskStep? && step.act.Send? {
      assert Sent(s) == s.received;
    } else {
      assert Sent(Next(cfg, s, step)) == Sent(s);
    }
  }

  lemma RowsKept(cfg: Config, s: State, step: Step, root: seq<Stored>)
    requires ValidConfig(cfg) && RowsConserved(s, root) && Enabled(cfg, s, step)
    ensures RowsConserved(Next(cfg, s, step), root)
  {
    SentGrows(cfg, s, step);
    if step.TaskStep? {
      TasksKeepRows(cfg, s, step.t, step.act);
    }
  }

  lemma Moved(after: multiset<Stored>, kept: multiset<Stored>, before: multiset<Stored>, moved: multiset<Stored>)
    requires after + (moved + kept) == before + kept
    ensures after + moved == before
  {
    assert after + (moved + kept) == (after + moved) + kept;
    assert after + moved == (after + moved + kept) - kept;
    assert before == (before + kept) - kept;
  }

  // ----- one centroid a leaf

  ghost predicate HasSent(task: Task) { task.leaf && !task.phase.Sending? }

  function FromTask(t: nat): Centroid -> bool { (c: Centroid) => c.task == t }

  /** How many centroids the task has sent. */
  function SentFrom(centroids: seq<Centroid>, t: nat): nat { CountIf(centroids, FromTask(t)) }

  /** Each entry of the sent list carries the rows of a leaf that is past its send, and there is one
      entry for each such leaf. */
  ghost predicate OnePerLeaf(s: State) {
    && (forall t :: 0 <= t < |s.tasks| && s.tasks[t].leaf ==>
          !s.tasks[t].phase.Waiting? && !s.tasks[t].phase.Running?
          && !s.tasks[t].phase.Spawning? && !s.tasks[t].phase.Counted?)
    && (forall t :: 0 <= t < |s.tasks| && s.tasks[t].phase.Sending? ==> s.tasks[t].leaf)
    && (forall i :: 0 <= i < |Sent(s)| ==> Accounted(s, Sent(s)[i]))
    && (forall t: nat :: SentFrom(Sent(s), t) == Ind(t < |s.tasks| && HasSent(s.tasks[t])))
  }

  ghost predicate Accounted(s: State, c: Centroid) {
    c.task < |s.tasks| && HasSent(s.tasks[c.task]) && c.rows == s.tasks[c.task].rows
  }

  lemma AccountedKept(cfg: Config, s: State, t: nat, act: Action, c: Centroid)
    requires ValidConfig(cfg) && OnePerLeaf(s) && Enabled(cfg, s, TaskStep(t, act))
    requires Accounted(s, c)
    ensures Accounted(Next(cfg, s, TaskStep(t, act)), c) && (act.Send? ==> c.task != t)
  {
  }

  lemma SendAccounts(cfg: Config, s: State, t: nat)
    requires ValidConfig(cfg) && OnePerLeaf(s) && Enabled(cfg, s, TaskStep(t, Send))
    ensures OnePerLeaf(Next(cfg, s, TaskStep(t, Send)))
  {
    var s' := Next(cfg, s, TaskStep(t, Send));
    assert Sent(s') == Sent(s) + [Centroid(t, s.tasks[t].rows)];
    forall i | 0 <= i < |Sent(s)| ensures Accounted(s', Sent(s)[i]) && Sent(s)[i].task != t {
      AccountedKept(cfg, s, t, Send, Sent(s)[i]);
    }
    forall u: nat ensures SentFrom(Sent(s'), u) == Ind(u < |s'.tasks| && HasSent(s'.tasks[u])) {
      CountAppend(Sent(s), Centroid(t, s.tasks[t].rows), FromTask(u));
      assert SentFrom(Sent(s), u) == Ind(u < |s.tasks| && HasSent(s.tasks[u]));
    }
  }

  lemma OnePerLeafKept(cfg: Config, s: State, step: Step)
    requires ValidConfig(cfg) && OnePerLeaf(s) && Enabled(cfg, s, step)
    ensures OnePerLeaf(Next(cfg, s, step))
  {
    var s' := Next(cfg, s, step);
    if step.TaskStep? && step.act.Send? {
      SendAccounts(cfg, s, step.t);
    } else if step.TaskStep? {
      assert Sent(s') == Sent(s);
      forall i | 0 <= i < |Sent(s)| ensures Accounted(s', Sent(s)[i]) {
        AccountedKept(cfg, s, step.t, step.act, Sent(s)[i]);
      }
    } else {
      assert Sent(s') == Sent(s);
      forall i | 0 <= i < |Sent(s)| ensures Accounted(s', Sent(s)[i]) {
        assert Accounted(s, Sent(s)[i]);
      }
    }
  }

  /** Unless the build is cancelled, leaves are small enough. */
  ghost predicate LeavesFit(cfg: Config, s: State) {
    !s.cancelled ==> forall t :: 0 <= t < |s.tasks| && s.tasks[t].leaf ==> |s.tasks[t].rows| <= cfg.target
  }

  lemma LeavesFitKept(cfg: Config, s: State, step: Step)
    requires ValidConfig(cfg) && LeavesFit(cfg, s) && Enabled(cfg, s, step)
    ensures LeavesFit(cfg, Next(cfg, s, step))
  {
  }

  // ----- the size of the tree

  /** How many tasks a file of `n` rows can still cost. */
  function TreeSize(n: nat): int { 2 * n - 1 }

  function Potential(task: Task): int {
    if task.phase.Waiting? || task.phase.Running? then TreeSize(|task.rows|)
    else if task.phase.Spawning? || task.phase.Counted? then
      1 + 2 * |Flatten(task.phase.todo)| - |task.phase.todo|
    else 1
  }

  /** An upper bound of the steps a task and its descendants still take. */
  function Work(task: Task): int {
    match task.phase
    case Waiting => 20 * |task.rows| - 10
    case Running => 20 * |task.rows| - 11
    case Sending => 5
    case Spawning(todo) => 20 * |Flatten(todo)| - 8 * |todo| + 4
    case Counted(todo) => 20 * |Flatten(todo)| - 8 * |todo| + 3
    case Finishing => 3
    case Released => 2
    case Closing => 1
    case Done => 0
  }

  function Sum(tasks: seq<Task>, f: Task -> int): int {
    if tasks == [] then 0 else Sum(tasks[..|tasks| - 1], f) + f(tasks[|tasks| - 1])
  }

  lemma {:induction false} SumUpdate(tasks: seq<Task>, t: nat, task: Task, f: Task -> int)
    requires t < |tasks|
    ensures Sum(tasks[t := task], f) == Sum(tasks, f) - f(tasks[t]) + f(task)
  {
    var n := |tasks| - 1;
    if t == n {
      assert tasks[t := task][..n] == tasks[..n];
    } else {
      SumUpdate(tasks[..n], t, task, f);
      assert tasks[t := task][..n] == tasks[..n][t := task];
    }
  }

  lemma SumAfter(cfg: Config, s: State, t: nat, act: Action, f: Task -> int)
    requires ValidConfig(cfg) && Enabled(cfg, s, TaskStep(t, act))
    ensures var started := Started(cfg, s, s.tasks[t], act);
      Sum(Next(cfg, s, TaskStep(t, act)).tasks, f)
      == Sum(s.tasks, f) - f(s.tasks[t]) + f(After(cfg, s, s.tasks[t], act))
         + (if started == [] then 0 else f(started[0]))
  {
    var tasks' := s.tasks[t := After(cfg, s, s.tasks[t], act)];
    SumUpdate(s.tasks, t, After(cfg, s, s.tasks[t], act), f);
    if act.Spawn? {
      var child := Task(s.tasks[t].phase.todo[0], false, Waiting);
      assert (tasks' + [child])[..|tasks'|] == tasks';
    } else {
      assert tasks' + [] == tasks';
    }
  }

  /** Every file and every subset waiting to be started has a row. */
  ghost predicate RowsEverywhere(s: State) {
    forall t :: 0 <= t < |s.tasks| ==> s.tasks[t].rows != [] && NoEmptyTodo(s.tasks[t])
  }

  ghost predicate NoEmptyTodo(task: Task) {
    task.phase.Spawning? || task.phase.Counted? ==> NoEmpty(task.phase.todo)
  }

  /** The split, if the step is one, gives every centroid a row. */
  ghost predicate FullStep(cfg: Config, s: State, step: Step)
    requires ValidConfig(cfg) && Enabled(cfg, s, step)
  {
    step.TaskStep? && step.act.Split? ==> Full(step.act.labels, Parts(cfg, |s.tasks[step.t].rows|))
  }

  lemma RowsEverywhereKept(cfg: Config, s: State, step: Step)
    requires ValidConfig(cfg) && RowsEverywhere(s) && Enabled(cfg, s, step) && FullStep(cfg, s, step)
    ensures RowsEverywhere(Next(cfg, s, step)) && !Next(cfg, s, step).crashed
  {
    if step.TaskStep? && step.act.Split? {
      var task := s.tasks[step.t];
      FullIffNoEmpty(task.rows, step.act.labels, Parts(cfg, |task.rows|));
    }
    if step.TaskStep? {
      assert NoEmptyTodo(s.tasks[step.t]);
    }
  }

  lemma PotentialPositive(task: Task)
    requires task.rows != [] && NoEmptyTodo(task)
    ensures Potential(task) >= 1 && Work(task) >= 0
  {
    if task.phase.Spawning? || task.phase.Counted? {
      FlattenAtLeast(task.phase.todo);
    }
  }

  lemma {:induction false} SumBounds(tasks: seq<Task>)
    requires forall t :: 0 <= t < |tasks| ==> tasks[t].rows != [] && NoEmptyTodo(tasks[t])
    ensures Sum(tasks, Potential) >= |tasks| && Sum(tasks, Work) >= 0
  {
    if tasks == [] {
    } else {
      SumBounds(tasks[..|tasks| - 1]);
      PotentialPositive(tasks[|tasks| - 1]);
    }
  }

  lemma PotentialNeverGrows(cfg: Config, s: State, step: Step)
    requires ValidConfig(cfg) && RowsEverywhere(s) && Enabled(cfg, s, step)
    ensures Sum(Next(cfg, s, step).tasks, Potential) <= Sum(s.tasks, Potential)
  {
    if step.TaskStep? {
      SumAfter(cfg, s, step.t, step.act, Potential);
      if step.act.Split? {
        SubsetsConserve(s.tasks[step.t].rows, step.act.labels, Parts(cfg, |s.tasks[step.t].rows|));
      }
    }
  }

  /** Steps left: the tasks' work, the collector's, and at most one cancellation. */
  function StepsLeft(s: State): int {
    Sum(s.tasks, Work)
    + (match s.collector case Finished => 0 case Receiving => 1 case Holding(_) => 2)
    + (if s.cancelled then 0 else 1)
  }

  lemma WorkDrops(cfg: Config, s: State, t: nat, act: Action)
    requires ValidConfig(cfg) && RowsEverywhere(s) && Enabled(cfg, s, TaskStep(t, act))
    ensures var started := Started(cfg, s, s.tasks[t], act);
      Work(After(cfg, s, s.tasks[t], act)) + (if started == [] then 0 else Work(started[0]))
      < Work(s.tasks[t]) - (if act.Send? then 1 else 0)
  {
    var task := s.tasks[t];
    if act.Split? {
      SubsetsConserve(task.rows, act.labels, Parts(cfg, |task.rows|));
    }
  }

  lemma StepsLeftDrops(cfg: Config, s: State, step: Step)
    requires ValidConfig(cfg) && RowsEverywhere(s) && Enabled(cfg, s, step)
    ensures StepsLeft(Next(cfg, s, step)) < StepsLeft(s)
  {
    if step.TaskStep? {
      SumAfter(cfg, s, step.t, step.act, Work);
      WorkDrops(cfg, s, step.t, step.act);
    }
  }
}
