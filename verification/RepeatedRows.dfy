/** Which files a build can bring down to the target size. A split cannot separate rows that the
    clustering cannot tell apart, and the number of those decides how the build may end. */
module RepeatedRows {
  import opened Constants
  import opened Sequences
  import opened Rows
  import opened DivideAndConquer
  import opened SplitTree
  import opened BuilderRuns

  // ----- keys

  /** How many rows have the key. Rows with the same key have the same nearest centroid: equal rows
      always do, and so do rows with the same unit row. */
  function CountKey<K(==)>(rows: seq<Stored>, key: Stored -> K, k: K): nat {
    CountIf(rows, Having(key, k))
  }

  function Having<K(==)>(key: Stored -> K, k: K): Stored -> bool { row => key(row) == k }

  /** No key occurs more than `target` times. */
  ghost predicate Few<K(!new)>(rows: seq<Stored>, key: Stored -> K, target: nat) {
    forall k: K :: CountKey(rows, key, k) <= target
  }

  ghost predicate SameLabels<K>(rows: seq<Stored>, labels: seq<nat>, key: Stored -> K) {
    && |rows| == |labels|
    && forall i, j :: 0 <= i < j < |rows| && key(rows[i]) == key(rows[j]) ==> labels[i] == labels[j]
  }

  /** The split, if the step is one, gives rows with the same key the same centroid. */
  ghost predicate Follows<K>(s: State, step: Step, key: Stored -> K) {
    step.TaskStep? && step.t < |s.tasks| && step.act.Split? ==>
      SameLabels(s.tasks[step.t].rows, step.act.labels, key)
  }

  ghost predicate RunFollows<K>(cfg: Config, s: State, steps: seq<Step>, s': State, key: Stored -> K)
    requires ValidConfig(cfg) && Run(cfg, s, steps, s')
    decreases |steps|
  {
    if steps == [] then true
    else Follows(s, steps[0], key) && RunFollows(cfg, Next(cfg, s, steps[0]), steps[1..], s', key)
  }

  lemma {:induction false} CountAtMost<K>(rows: seq<Stored>, key: Stored -> K, k: K)
    ensures CountKey(rows, key, k) <= |rows|
  {
    if rows == [] {
    } else {
      CountAtMost(rows[..|rows| - 1], key, k);
    }
  }

  lemma {:induction false} SubsetCount<K>(rows: seq<Stored>, labels: seq<nat>, part: nat, key: Stored -> K, k: K)
    requires |rows| == |labels|
    ensures CountKey(Subset(rows, labels, part), key, k) <= CountKey(rows, key, k)
    ensures (forall i :: 0 <= i < |rows| && key(rows[i]) == k ==> labels[i] == part) ==>
              CountKey(Subset(rows, labels, part), key, k) == CountKey(rows, key, k)
  {
    if rows == [] {
    } else {
      var n := |rows| - 1;
      SubsetCount(rows[..n], labels[..n], part, key, k);
      var before := Subset(rows[..n], labels[..n], part);
      assert (before + [rows[n]])[..|before|] == before;
      assert before + [] == before;
    }
  }

  // ----- too many rows of one key

  ghost predicate Heavy<K>(task: Task, key: Stored -> K, k: K, target: nat) {
    if task.phase.Waiting? || task.phase.Running? then CountKey(task.rows, key, k) > target
    else if task.phase.Spawning? || task.phase.Counted? then HeavyPart(task.phase.todo, key, k, target)
    else false
  }

  ghost predicate HeavyPart<K>(parts: seq<seq<Stored>>, key: Stored -> K, k: K, target: nat) {
    exists j :: 0 <= j < |parts| && CountKey(parts[j], key, k) > target
  }

  /** Some file still holds more than `target` rows of the key. */
  ghost predicate HeavyAround<K>(s: State, key: Stored -> K, k: K, target: nat) {
    exists t :: 0 <= t < |s.tasks| && Heavy(s.tasks[t], key, k, target)
  }

  /** A split passes them on together. */
  lemma SplitPassesOn<K>(rows: seq<Stored>, labels: seq<nat>, parts: nat, key: Stored -> K, k: K, target: nat)
    requires ValidLabels(rows, labels, parts) && SameLabels(rows, labels, key)
    requires CountKey(rows, key, k) > target
    ensures HeavyPart(Subsets(rows, labels, parts), key, k, target)
  {
    var i := SomeCounted(rows, Having(key, k));
    SubsetCount(rows, labels, labels[i], key, k);
    assert Subsets(rows, labels, parts)[labels[i]] == Subset(rows, labels, labels[i]);
  }

  /** A task that holds them does not become a leaf. */
  lemma HeavyTaskKept<K>(cfg: Config, s: State, t: nat, act: Action, key: Stored -> K, k: K)
    requires ValidConfig(cfg) && Enabled(cfg, s, TaskStep(t, act)) && !s.cancelled
    requires Heavy(s.tasks[t], key, k, cfg.target) && Follows(s, TaskStep(t, act), key)
    ensures Heavy(After(cfg, s, s.tasks[t], act), key, k, cfg.target)
            || (act.Spawn? && CountKey(s.tasks[t].phase.todo[0], key, k) > cfg.target)
  {
    var task := s.tasks[t];
    CountAtMost(task.rows, key, k);
    if act.Split? {
      SplitPassesOn(task.rows, act.labels, Parts(cfg, |task.rows|), key, k, cfg.target);
    } else if act.Spawn? {
      var j :| 0 <= j < |task.phase.todo| && CountKey(task.phase.todo[j], key, k) > cfg.target;
      assert j > 0 ==> task.phase.todo[1..][j - 1] == task.phase.todo[j];
    }
  }

  lemma HeavyStays<K>(cfg: Config, s: State, step: Step, key: Stored -> K, k: K)
    requires ValidConfig(cfg) && Enabled(cfg, s, step) && !s.cancelled && Follows(s, step, key)
    requires HeavyAround(s, key, k, cfg.target)
    ensures HeavyAround(Next(cfg, s, step), key, k, cfg.target)
  {
    var s' := Next(cfg, s, step);
    var t :| 0 <= t < |s.tasks| && Heavy(s.tasks[t], key, k, cfg.target);
    if step.TaskStep? && step.t == t {
      HeavyTaskKept(cfg, s, t, step.act, key, k);
      assert s'.tasks[t] == After(cfg, s, s.tasks[t], step.act);
      if step.act.Spawn? {
        assert s'.tasks[|s.tasks|] == Task(s.tasks[t].phase.todo[0], false, Waiting);
      }
    } else {
      assert s'.tasks[t] == s.tasks[t];
    }
  }

  lemma {:induction false} CancelStays(cfg: Config, s: State, steps: seq<Step>, s': State)
    requires ValidConfig(cfg) && Run(cfg, s, steps, s') && s.cancelled
    ensures s'.cancelled
    decreases |steps|
  {
    if steps == [] {
    } else {
      CancelStays(cfg, Next(cfg, s, steps[0]), steps[1..], s');
    }
  }

  lemma {:induction false} RunStaysHeavy<K>(cfg: Config, s: State, steps: seq<Step>, s': State,
                                            key: Stored -> K, k: K)
    requires ValidConfig(cfg) && Run(cfg, s, steps, s') && RunFollows(cfg, s, steps, s', key)
    requires !s'.cancelled && HeavyAround(s, key, k, cfg.target)
    ensures HeavyAround(s', key, k, cfg.target)
    decreases |steps|
  {
    if steps == [] {
    } else {
      if s.cancelled {
        CancelStays(cfg, s, steps, s');
      }
      HeavyStays(cfg, s, steps[0], key, k);
      RunStaysHeavy(cfg, Next(cfg, s, steps[0]), steps[1..], s', key, k);
    }
  }

  lemma HeavyRoot<K>(cfg: Config, root: seq<Stored>, steps: seq<Step>, s: State, key: Stored -> K, k: K)
    requires ValidConfig(cfg) && CountKey(root, key, k) > cfg.target
    requires Run(cfg, Init(root), steps, s) && !s.cancelled && RunFollows(cfg, Init(root), steps, s, key)
    ensures HeavyAround(s, key, k, cfg.target)
  {
    assert Heavy(Init(root).tasks[0], key, k, cfg.target);
    RunStaysHeavy(cfg, Init(root), steps, s, key, k);
  }

  /** More than `target` rows of one key crash every build that is not cancelled, whatever the other
      rows are. */
  lemma HeavyKeyCrashes<K>(cfg: Config, root: seq<Stored>, steps: seq<Step>, s: State, key: Stored -> K, k: K)
    requires ValidConfig(cfg) && CountKey(root, key, k) > cfg.target
    requires Run(cfg, Init(root), steps, s) && Stuck(cfg, s) && !s.cancelled
    requires RunFollows(cfg, Init(root), steps, s, key)
    ensures s.crashed
  {
    HeavyRoot(cfg, root, steps, s, key, k);
    assert !Final(s);
    InitInv(cfg, root);
    RunKeepsInv(cfg, Init(root), steps, s, root);
    RunKeepsCounted(cfg, Init(root), steps, s);
    if !s.crashed {
      var step := Progress(cfg, s, root);
    }
  }

  // ----- few enough rows of every key

  function Others<K(==)>(rows: seq<Stored>, key: Stored -> K, k: K): seq<Stored> {
    if rows == [] then []
    else
      var n := |rows| - 1;
      Others(rows[..n], key, k) + (if key(rows[n]) == k then [] else [rows[n]])
  }

  lemma {:induction false} OthersCount<K>(rows: seq<Stored>, key: Stored -> K, k: K, other: K)
    ensures |rows| == |Others(rows, key, k)| + CountKey(rows, key, k)
    ensures CountKey(Others(rows, key, k), key, other) <= CountKey(rows, key, other)
    ensures forall row :: row in Others(rows, key, k) ==> row in rows && key(row) != k
  {
    if rows == [] {
    } else {
      var n := |rows| - 1;
      OthersCount(rows[..n], key, k, other);
      var before := Others(rows[..n], key, k);
      assert (before + [rows[n]])[..|before|] == before;
      assert before + [] == before;
    }
  }

  /** Rows that share `|keys|` keys are at most that many times `target`. */
  lemma {:induction false} CoveredAtMost<K(!new)>(rows: seq<Stored>, key: Stored -> K, keys: seq<K>, target: nat)
    requires Few(rows, key, target) && forall row :: row in rows ==> key(row) in keys
    ensures |rows| <= |keys| * target
    decreases |keys|
  {
    if rows == [] {
    } else {
      assert rows[0] in rows && key(rows[0]) in keys;
      var n := |keys| - 1;
      var rest := Others(rows, key, keys[n]);
      forall other: K ensures CountKey(rest, key, other) <= target {
        OthersCount(rows, key, keys[n], other);
      }
      OthersCount(rows, key, keys[n], keys[n]);
      CoveredAtMost(rest, key, keys[..n], target);
      Times(n, target);
    }
  }

  lemma Times(n: nat, target: nat)
    ensures (n + 1) * target == n * target + target
  {
  }

  ghost predicate Occurs<K>(rows: seq<Stored>, key: Stored -> K, k: K) {
    exists row :: row in rows && key(row) == k
  }

  /** There are at least `p` different keys. */
  lemma {:induction false} SomeKeys<K(!new)>(rows: seq<Stored>, key: Stored -> K, target: nat, p: nat)
    returns (keys: seq<K>)
    requires Few(rows, key, target) && p > 0 && (p - 1) * target < |rows|
    ensures |keys| == p && Distinct(keys)
    ensures forall i :: 0 <= i < p ==> Occurs(rows, key, keys[i])
  {
    var before: seq<K> := [];
    if p == 1 {
    } else {
      Times(p - 2, target);
      before := SomeKeys(rows, key, target, p - 1);
    }
    if forall row :: row in rows ==> key(row) in before {
      CoveredAtMost(rows, key, before, target);
    }
    var row :| row in rows && key(row) !in before;
    keys := before + [key(row)];
  }

  function IndexOf<K(==)>(keys: seq<K>, k: K): (i: nat)
    ensures keys != [] ==> i < |keys|
    ensures k in keys ==> keys[i] == k
  {
    if k !in keys then 0
    else if keys[|keys| - 1] == k then |keys| - 1
    else IndexOf(keys[..|keys| - 1], k)
  }

  lemma PartsFit(cfg: Config, n: nat)
    requires ValidConfig(cfg) && n > cfg.target
    ensures Parts(cfg, n) >= 2 && (Parts(cfg, n) - 1) * cfg.target < n
  {
    if n / cfg.target >= 2 {
    } else {
    }
  }

  /** Then the file has a full split that keeps rows of one key together. */
  lemma FullLabels<K(!new)>(cfg: Config, rows: seq<Stored>, key: Stored -> K) returns (labels: seq<nat>)
    requires ValidConfig(cfg) && |rows| > cfg.target && Few(rows, key, cfg.target)
    ensures ValidLabels(rows, labels, Parts(cfg, |rows|)) && Full(labels, Parts(cfg, |rows|))
    ensures SameLabels(rows, labels, key)
  {
    PartsFit(cfg, |rows|);
    var p := Parts(cfg, |rows|);
    var keys := SomeKeys(rows, key, cfg.target, p);
    labels := seq(|rows|, i requires 0 <= i < |rows| => IndexOf(keys, key(rows[i])));
    forall part: nat | part < p ensures part in labels {
      assert Occurs(rows, key, keys[part]);
      var row :| row in rows && key(row) == keys[part];
      var i :| 0 <= i < |rows| && rows[i] == row;
      assert labels[i] == part;
    }
  }

  /** No key is too frequent in any file or waiting subset. */
  ghost predicate FewAround<K(!new)>(s: State, key: Stored -> K, target: nat) {
    forall t :: 0 <= t < |s.tasks| ==> FewIn(s.tasks[t], key, target)
  }

  ghost predicate FewIn<K(!new)>(task: Task, key: Stored -> K, target: nat) {
    && Few(task.rows, key, target)
    && (task.phase.Spawning? || task.phase.Counted? ==> FewParts(task.phase.todo, key, target))
  }

  ghost predicate FewParts<K(!new)>(parts: seq<seq<Stored>>, key: Stored -> K, target: nat) {
    forall j :: 0 <= j < |parts| ==> Few(parts[j], key, target)
  }

  lemma SplitLeavesFew<K(!new)>(rows: seq<Stored>, labels: seq<nat>, parts: nat, key: Stored -> K, target: nat)
    requires |rows| == |labels| && Few(rows, key, target)
    ensures FewParts(Subsets(rows, labels, parts), key, target)
  {
    forall j, k: K | 0 <= j < parts ensures CountKey(Subsets(rows, labels, parts)[j], key, k) <= target {
      SubsetCount(rows, labels, j, key, k);
    }
  }

  lemma FewStays<K(!new)>(cfg: Config, s: State, step: Step, key: Stored -> K)
    requires ValidConfig(cfg) && Enabled(cfg, s, step) && FewAround(s, key, cfg.target)
    ensures FewAround(Next(cfg, s, step), key, cfg.target)
  {
    var s' := Next(cfg, s, step);
    if step.TaskStep? {
      var task := s.tasks[step.t];
      assert FewIn(task, key, cfg.target);
      if step.act.Split? {
        SplitLeavesFew(task.rows, step.act.labels, Parts(cfg, |task.rows|), key, cfg.target);
      }
      assert FewIn(After(cfg, s, task, step.act), key, cfg.target);
    }
  }

  /** A state on the way to a delivery. */
  ghost predicate OnCourse<K(!new)>(cfg: Config, s: State, root: seq<Stored>, key: Stored -> K) {
    && Inv(cfg, s, root) && CountedHasNext(s) && RowsEverywhere(s) && FewAround(s, key, cfg.target)
    && !s.crashed && !s.cancelled
  }

  /** One more step that stays on course: any one, but a split is chosen full. */
  lemma GoodStep<K(!new)>(cfg: Config, s: State, root: seq<Stored>, key: Stored -> K) returns (step: Step)
    requires ValidConfig(cfg) && OnCourse(cfg, s, root, key) && !Final(s)
    ensures Enabled(cfg, s, step) && !step.Cancel? && FullStep(cfg, s, step) && Follows(s, step, key)
  {
    step := Progress(cfg, s, root);
    if step.TaskStep? && step.act.Split? {
      assert FewIn(s.tasks[step.t], key, cfg.target);
      var labels := FullLabels(cfg, s.tasks[step.t].rows, key);
      step := TaskStep(step.t, Split(labels));
    }
  }

  lemma StaysOnCourse<K(!new)>(cfg: Config, s: State, root: seq<Stored>, key: Stored -> K, step: Step)
    requires ValidConfig(cfg) && OnCourse(cfg, s, root, key)
    requires Enabled(cfg, s, step) && !step.Cancel? && FullStep(cfg, s, step)
    ensures OnCourse(cfg, Next(cfg, s, step), root, key)
  {
    InvKept(cfg, s, step, root);
    RowsEverywhereKept(cfg, s, step);
    FewStays(cfg, s, step, key);
    RunKeepsCounted(cfg, s, [step], Next(cfg, s, step));
  }

  lemma {:induction false} Complete<K(!new)>(cfg: Config, s: State, root: seq<Stored>, key: Stored -> K)
    returns (steps: seq<Step>, s': State)
    requires ValidConfig(cfg) && OnCourse(cfg, s, root, key)
    ensures Run(cfg, s, steps, s') && RunFollows(cfg, s, steps, s', key)
    ensures Final(s') && !s'.cancelled && Inv(cfg, s', root)
    decreases StepsLeft(s) + 1
  {
    SumBounds(s.tasks);
    if Final(s) {
      steps, s' := [], s;
    } else {
      var step := GoodStep(cfg, s, root, key);
      StaysOnCourse(cfg, s, root, key, step);
      StepsLeftDrops(cfg, s, step);
      var rest;
      rest, s' := Complete(cfg, Next(cfg, s, step), root, key);
      steps := [step] + rest;
      assert steps[1..] == rest;
    }
  }

  // ----- when a build can deliver

  /** A complete run that is not cancelled, splits by the key and delivers. */
  ghost predicate Delivers<K>(cfg: Config, root: seq<Stored>, steps: seq<Step>, s: State, key: Stored -> K)
    requires ValidConfig(cfg)
  {
    && Run(cfg, Init(root), steps, s) && RunFollows(cfg, Init(root), steps, s, key)
    && Stuck(cfg, s) && !s.cancelled && Delivered(cfg, s, root)
  }

  /** Some build delivers if and only if no key occurs more than `target` times. */
  lemma CanDeliverIff<K(!new)>(cfg: Config, root: seq<Stored>, key: Stored -> K)
    requires ValidConfig(cfg) && root != []
    ensures (exists steps, s :: Delivers(cfg, root, steps, s, key)) <==> Few(root, key, cfg.target)
  {
    if Few(root, key, cfg.target) {
      InitInv(cfg, root);
      var steps, s := Complete(cfg, Init(root), root, key);
      FinalIsStuck(cfg, s);
      FinalDelivers(cfg, s, root);
      assert Delivers(cfg, root, steps, s, key);
    } else {
      var k: K :| CountKey(root, key, k) > cfg.target;
      forall steps, s ensures !Delivers(cfg, root, steps, s, key) {
        if Delivers(cfg, root, steps, s, key) {
          HeavyRoot(cfg, root, steps, s, key, k);
          InitInv(cfg, root);
          RunKeepsInv(cfg, Init(root), steps, s, root);
          CloseIsSafe(cfg, s);
        }
      }
    }
  }

  // ----- equal rows

  function Itself(row: Stored): Stored { row }

  lemma {:induction false} CountItself(rows: seq<Stored>, x: Stored)
    ensures CountKey(rows, Itself, x) == multiset(rows)[x]
  {
    if rows == [] {
    } else {
      var n := |rows| - 1;
      CountItself(rows[..n], x);
      assert rows == rows[..n] + [rows[n]];
      assert Having(Itself, x)(rows[n]) == (rows[n] == x);
    }
  }

  /** More than `target` copies of one row crash every build that is not cancelled. */
  lemma RepeatedRowCrashes(cfg: Config, root: seq<Stored>, steps: seq<Step>, s: State, x: Stored)
    requires ValidConfig(cfg) && multiset(root)[x] > cfg.target
    requires Run(cfg, Init(root), steps, s) && Stuck(cfg, s) && !s.cancelled
    requires RunFollows(cfg, Init(root), steps, s, Itself)
    ensures s.crashed
  {
    CountItself(root, x);
    HeavyKeyCrashes(cfg, root, steps, s, Itself, x);
  }

  /** Some build that treats equal rows alike delivers if and only if no row occurs more than
      `target` times. */
  lemma RowsCanDeliverIff(cfg: Config, root: seq<Stored>)
    requires ValidConfig(cfg) && root != []
    ensures (exists steps, s :: Delivers(cfg, root, steps, s, Itself))
            <==> forall x :: multiset(root)[x] <= cfg.target
  {
    CanDeliverIff(cfg, root, Itself);
    forall x ensures CountKey(root, Itself, x) == multiset(root)[x] {
      CountItself(root, x);
    }
  }
}
