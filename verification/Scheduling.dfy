/** When compactions are planned, and what running the plan achieves
    (crates/flushdb-engine/src/compaction/scheduler.rs, crates/flushdb-engine/src/engine.rs). */
module Scheduling {
  import opened Wrappers
  import opened ByteStrings
  import opened Entries
  import opened Tables
  import opened Manifests
  import opened Compaction
  import opened LevelInvariants
  import opened Engine
  import opened EngineInvariant
  import T = Tiers

  // --- The triggers ---

  /** Level sizes add up. */
  lemma {:induction false} LevelSizeIsSum(a: seq<Table>, b: seq<Table>, t: Table)
    ensures LevelSize([]) == 0 && LevelSize([t]) == t.size
    ensures LevelSize(a + b) == LevelSize(a) + LevelSize(b)
  {
    assert [t][1..] == [];
    if a == [] {
      assert a + b == b;
    } else {
      assert (a + b)[1..] == a[1..] + b;
      LevelSizeIsSum(a[1..], b, t);
    }
  }

  function MaxBytes(cfg: Config, level: nat): nat
    requires level == 1 || level == 2
  {
    if level == 1 then cfg.l1MaxBytes else cfg.l2MaxBytes
  }

  /** The level is over its limit: by count at L0, by size below. */
  predicate Over(cfg: Config, levels: Levels, level: nat)
    requires level < BOTTOM
  {
    if level == 0 then |levels[0]| > cfg.l0Trigger else LevelSize(levels[level]) > MaxBytes(cfg, level)
  }

  /** The least minimum and the greatest maximum of some tables. */
  ghost predicate Spans(ts: seq<Table>, lo: Bytes, hi: Bytes) {
    && (exists t :: t in ts && t.minKey == lo) && (exists t :: t in ts && t.maxKey == hi)
    && forall t :: t in ts ==> Le(lo, t.minKey) && Le(t.maxKey, hi)
  }

  /** The task for a level: all of L0, or the oldest table, with exactly the tables of the next level
      that meet their key range. */
  ghost predicate IsTaskFor(levels: Levels, level: nat, task: Task)
    requires level < BOTTOM
  {
    && task.source == level && task.target == level + 1
    && (if level == 0 then task.inputs == levels[0]
        else |task.inputs| == 1 && task.inputs[0] in levels[level] && forall t :: t in levels[level] ==> task.inputs[0].createdAt <= t.createdAt)
    && exists lo, hi :: Spans(task.inputs, lo, hi) && forall t :: t in task.targets <==> t in levels[level + 1] && t.OverlapsRange(lo, hi)
  }

  lemma {:induction false} CombinedSpans(ts: seq<Table>)
    requires ts != []
    ensures Spans(ts, CombinedMin(ts), CombinedMax(ts))
  {
    hide Lt;
    forall t | t in ts
      ensures Le(CombinedMin(ts), t.minKey) && Le(t.maxKey, CombinedMax(ts))
    {
      CombinedCovers(ts, t);
    }
    CombinedReached(ts);
  }

  lemma {:induction false} CombinedReached(ts: seq<Table>)
    requires ts != []
    ensures exists t :: t in ts && t.minKey == CombinedMin(ts)
    ensures exists t :: t in ts && t.maxKey == CombinedMax(ts)
  {
    hide Lt;
    var n := |ts| - 1;
    assert ts[n] in ts;
    if n > 0 {
      assert ts == ts[..n] + [ts[n]];
      CombinedReached(ts[..n]);
    }
  }

  lemma L0Task(cfg: Config, levels: Levels)
    ensures CheckL0Trigger(cfg, levels).Some? <==> Over(cfg, levels, 0)
    ensures CheckL0Trigger(cfg, levels).Some? ==> IsTaskFor(levels, 0, CheckL0Trigger(cfg, levels).value)
  {
    if |levels[0]| > cfg.l0Trigger {
      CombinedSpans(levels[0]);
    }
  }

  lemma LevelTask(cfg: Config, levels: Levels, level: nat)
    requires level == 1 || level == 2
    ensures CheckLevelTrigger(cfg, levels, level).Some? <==> Over(cfg, levels, level)
    ensures CheckLevelTrigger(cfg, levels, level).Some? ==> IsTaskFor(levels, level, CheckLevelTrigger(cfg, levels, level).value)
  {
    var t := CheckLevelTrigger(cfg, levels, level);
    if t.Some? {
      CombinedSpans(t.value.inputs);
    }
  }

  /** What one check of the triggers returns: for each level above the bottom one task exactly when the
      level is over its limit, shallowest level first. */
  lemma {:induction false} TriggersIff(cfg: Config, levels: Levels)
    ensures var tasks := CheckTriggers(cfg, levels);
            && (forall l :: 0 <= l < BOTTOM ==> (Over(cfg, levels, l) <==> exists t :: t in tasks && IsTaskFor(levels, l, t)))
            && (forall t :: t in tasks ==> t.source < BOTTOM && IsTaskFor(levels, t.source, t))
            && (forall i, j :: 0 <= i < j < |tasks| ==> tasks[i].source < tasks[j].source)
  {
    hide IsTaskFor, Over, CheckL0Trigger, CheckLevelTrigger, CheckTriggers;
    L0Task(cfg, levels);
    LevelTask(cfg, levels, 1);
    LevelTask(cfg, levels, 2);
    SourceOf(levels);
    TasksListed(cfg, levels);
    forall l | 0 <= l < BOTTOM
      ensures Over(cfg, levels, l) <==> exists t :: t in CheckTriggers(cfg, levels) && IsTaskFor(levels, l, t)
    {
      assert l == 0 || l == 1 || l == 2;
    }
    TasksInOrder(cfg, levels);
  }

  lemma TasksListed(cfg: Config, levels: Levels)
    ensures forall t :: t in CheckTriggers(cfg, levels) <==>
              Some(t) == CheckL0Trigger(cfg, levels) || Some(t) == CheckLevelTrigger(cfg, levels, 1) || Some(t) == CheckLevelTrigger(cfg, levels, 2)
  {
    hide CheckL0Trigger, CheckLevelTrigger;
  }

  lemma TasksInOrder(cfg: Config, levels: Levels)
    ensures var tasks := CheckTriggers(cfg, levels); forall i, j :: 0 <= i < j < |tasks| ==> tasks[i].source < tasks[j].source
  {
    hide IsTaskFor, Over, CheckL0Trigger, CheckLevelTrigger;
    L0Task(cfg, levels);
    LevelTask(cfg, levels, 1);
    LevelTask(cfg, levels, 2);
    SourceOf(levels);
  }

  lemma SourceOf(levels: Levels)
    ensures forall l, t :: 0 <= l < BOTTOM && IsTaskFor(levels, l, t) ==> t.source == l
  {
  }

  // --- What running the plan achieves ---

  /** The inputs of the task are no longer in its source level. */
  ghost predicate Relieved(levels: Levels, task: Task)
    requires task.source < LEVELS
  {
    forall t :: t in levels[task.source] ==> t.id !in Ids(task.inputs)
  }

  /** One task of a plan: it runs, or it is stale and the plan ends. */
  lemma {:induction false} FirstTask(cfg: EngineConfig, s: State, log: seq<Entry>, tasks: seq<Task>, now: nat) returns (next: State)
    requires Inv(cfg, s, log) && Chain(s.levels, tasks) && tasks != []
    ensures tasks[0].target == tasks[0].source + 1 < LEVELS
    ensures !Proper(s.levels, tasks[0]) ==> next == s && RunTasks(cfg, s, tasks, now).0 == s && RunTasks(cfg, s, tasks, now).1.Err?
    ensures Proper(s.levels, tasks[0]) ==>
              && RunTasks(cfg, s, tasks, now) == RunTasks(cfg, next, tasks[1..], now)
              && Inv(cfg, next, log) && Chain(next.levels, tasks[1..])
              && Replaced(s.levels, next.levels, tasks[0], NewTables(cfg.compaction, tasks[0], s.nextId, now))
  {
    hide Inv, ValidLevels, Chain, Proper, Execute, IdsBelow, NewTables, Replaced, RebuildLevels;
    ReadyForTasks(cfg, s, log, tasks);
    PendingShape(s.levels, tasks[0]);
    PendingRunsOrFails(cfg.compaction, tasks[0], s.manifest, s.nextId, now);
    next := s;
    if Proper(s.levels, tasks[0]) {
      var m := TaskKeeps(cfg, s, log, tasks[0], now);
      ChainSurvives(cfg.compaction, s.levels, tasks, m.levels, s.nextId, now);
      next := AfterTask(cfg, s, tasks[0], m);
    }
  }

  lemma PendingShape(levels: Levels, task: Task)
    requires Pending(levels, task)
    ensures task.target == task.source + 1 < LEVELS
  {
  }

  lemma ChainAbove(levels: Levels, tasks: seq<Task>, l: nat)
    requires Chain(levels, tasks) && tasks != [] && tasks[0].source > l
    ensures forall i :: 0 <= i < |tasks| ==> tasks[i].source > l
  {
    hide Proper;
    PendingShape(levels, tasks[0]);
  }

  /** Tasks leave the levels above their sources alone. */
  lemma {:induction false} AboveUntouched(cfg: EngineConfig, s: State, log: seq<Entry>, tasks: seq<Task>, now: nat, l: nat)
    requires Inv(cfg, s, log) && Chain(s.levels, tasks) && l < LEVELS && forall i :: 0 <= i < |tasks| ==> tasks[i].source > l
    ensures RunTasks(cfg, s, tasks, now).0.levels[l] == s.levels[l]
    decreases |tasks|
  {
    hide Inv, Chain, Proper, RunTasks, NewTables;
    if tasks == [] {
      NothingToRun(cfg, s, now);
    } else {
      var next := FirstTask(cfg, s, log, tasks, now);
      if Proper(s.levels, tasks[0]) {
        assert forall i :: 0 <= i < |tasks[1..]| ==> tasks[1..][i] == tasks[i + 1];
        AboveUntouched(cfg, next, log, tasks[1..], now, l);
      }
    }
  }

  lemma NothingToRun(cfg: EngineConfig, s: State, now: nat)
    ensures RunTasks(cfg, s, [], now) == (s, Ok(()))
  {
  }

  lemma StaleIsGone(levels: Levels, task: Task)
    requires Pending(levels, task) && !Proper(levels, task)
    ensures task.source < LEVELS && Relieved(levels, task)
  {
    assert Ids(task.inputs) == {task.inputs[0].id};
  }

  lemma ChainFirst(levels: Levels, tasks: seq<Task>)
    requires Chain(levels, tasks) && tasks != []
    ensures Pending(levels, tasks[0])
  {
  }

  lemma ReplacedRelieves(levels: Levels, after: Levels, task: Task, outs: seq<Table>)
    requires task.target == task.source + 1 < LEVELS && Replaced(levels, after, task, outs)
    ensures Relieved(after, task)
  {
    MinusMembers(levels[task.source], Ids(task.inputs));
  }

  lemma LaterSources(levels: Levels, tasks: seq<Task>)
    requires Chain(levels, tasks) && tasks != []
    ensures forall i :: 0 <= i < |tasks[1..]| ==> tasks[1..][i].source > tasks[0].source
  {
    hide Proper;
    PendingShape(levels, tasks[0]);
  }

  /** The first task of a plan always relieves its source level. */
  lemma {:induction false} FirstRelieves(cfg: EngineConfig, s: State, log: seq<Entry>, tasks: seq<Task>, now: nat)
    requires Inv(cfg, s, log) && Chain(s.levels, tasks) && tasks != []
    ensures tasks[0].source < LEVELS && Relieved(RunTasks(cfg, s, tasks, now).0.levels, tasks[0])
  {
    hide Inv, Chain, Proper, RunTasks, Pending, NewTables;
    var next := FirstTask(cfg, s, log, tasks, now);
    ChainFirst(s.levels, tasks);
    if Proper(s.levels, tasks[0]) {
      ReplacedRelieves(s.levels, next.levels, tasks[0], NewTables(cfg.compaction, tasks[0], s.nextId, now));
      LaterSources(s.levels, tasks);
      AboveUntouched(cfg, next, log, tasks[1..], now, tasks[0].source);
    } else {
      StaleIsGone(s.levels, tasks[0]);
    }
  }

  /** After a task, a later one of the same plan is stale exactly if the task consumed its input. */
  lemma {:induction false} StaleIff(cfg: EngineConfig, s: State, log: seq<Entry>, task: Task, later: Task, next: State, now: nat)
    requires Inv(cfg, s, log) && Proper(s.levels, task) && Proper(s.levels, later) && task.target == task.source + 1 <= later.source
    requires Replaced(s.levels, next.levels, task, NewTables(cfg.compaction, task, s.nextId, now))
    ensures later.inputs != []
    ensures Proper(next.levels, later) <==> !(later.source == task.target && later.inputs[0] in task.targets)
  {
    hide GoodMemory, T.Ordered, T.Faithful, ValidLevels, IdsBelow, NewTables;
    NewTablesFit(cfg.compaction, s.levels, task, s.nextId, now);
    LaterTaskSurvives(cfg.compaction, s.levels, task, later, next.levels, s.nextId, now);
    var x, outs := later.inputs[0], NewTables(cfg.compaction, task, s.nextId, now);
    if later.source == task.target {
      NewIsNotOld(cfg, s, task, outs, x);
      assert next.levels[later.target] == s.levels[later.target];
    }
  }

  lemma NewIsNotOld(cfg: EngineConfig, s: State, task: Task, outs: seq<Table>, x: Table)
    requires ValidLevels(cfg.compaction, s.levels) && Proper(s.levels, task) && IdsBelow(s.levels, s.nextId)
    requires FreshIds(task, outs, s.nextId) && x in s.levels[task.target]
    ensures x !in outs
  {
    hide GoodTable;
    assert task.inputs[0] in s.levels[task.source];
    assert x.id < s.nextId;
  }

  /** The plan keeps to its tasks: a task whose predecessor was stale is not run. */
  lemma {:induction false} SecondRelieves(cfg: EngineConfig, s: State, log: seq<Entry>, tasks: seq<Task>, now: nat)
    requires Inv(cfg, s, log) && Chain(s.levels, tasks) && |tasks| >= 2 && Proper(s.levels, tasks[0])
    ensures tasks[1].source < LEVELS && Relieved(RunTasks(cfg, s, tasks, now).0.levels, tasks[1])
  {
    hide Inv, Chain, Proper, RunTasks, NewTables, Relieved, Replaced;
    var next := FirstTask(cfg, s, log, tasks, now);
    FirstRelieves(cfg, next, log, tasks[1..], now);
  }

  /** The third task is stuck exactly when the second one was consumed by the first. */
  lemma {:induction false} ThirdRelieves(cfg: EngineConfig, s: State, log: seq<Entry>, tasks: seq<Task>, now: nat)
    requires Inv(cfg, s, log) && Chain(s.levels, tasks) && |tasks| == 3 && (forall i :: 0 <= i < 3 ==> Proper(s.levels, tasks[i]))
    ensures tasks[1].inputs != [] && tasks[2].source < LEVELS
    ensures Relieved(RunTasks(cfg, s, tasks, now).0.levels, tasks[2]) <==> !(tasks[1].inputs[0] in tasks[0].targets)
  {
    hide Inv, Chain, Proper, RunTasks, NewTables, Relieved, Replaced;
    var next := FirstTask(cfg, s, log, tasks, now);
    ThreeSources(s.levels, tasks);
    StaleIff(cfg, s, log, tasks[0], tasks[1], next, now);
    StaleIff(cfg, s, log, tasks[0], tasks[2], next, now);
    if Proper(next.levels, tasks[1]) {
      SecondRelieves(cfg, next, log, tasks[1..], now);
    } else {
      var last := FirstTask(cfg, next, log, tasks[1..], now);
      StillThere(next.levels, tasks[2]);
    }
  }

  lemma ThreeSources(levels: Levels, tasks: seq<Task>)
    requires Chain(levels, tasks) && |tasks| == 3 && forall i :: 0 <= i < 3 ==> Proper(levels, tasks[i])
    ensures tasks[0].source == 0 && tasks[1].source == 1 && tasks[2].source == 2
    ensures tasks[0].target == 1 && tasks[1].target == 2 && tasks[2].target == 3
  {
    ProperShape(levels, tasks[0]);
    ProperShape(levels, tasks[1]);
    ProperShape(levels, tasks[2]);
    hide Proper;
  }

  lemma StillThere(levels: Levels, task: Task)
    requires Proper(levels, task) && task.source > 0
    ensures !Relieved(levels, task)
  {
    assert task.inputs[0].id in Ids(task.inputs);
  }

  /** The task of L2 is never reached: L0 and L1 are over their limits too, and the table chosen at L1
      is consumed by the compaction of L0. */
  ghost predicate Stuck(cfg: Config, levels: Levels, level: nat)
    requires level < BOTTOM
  {
    level == 2 && Over(cfg, levels, 0) && Over(cfg, levels, 1) &&
    exists a, b :: a in CheckTriggers(cfg, levels) && b in CheckTriggers(cfg, levels)
      && a.source == 0 && b.source == 1 && b.inputs != [] && b.inputs[0] in a.targets
  }

  /** A compaction in any run: every level over its limit loses the tables its task was planned for, so
      an L0 over its count ends up empty, except exactly when the task of L2 is stuck; and an engine
      with no level over its limit is left as it is. */
  lemma {:induction false} CompactionRelieves(cfg: EngineConfig, ops: seq<Op>, now: nat)
    ensures var s := Run(cfg, ops); var t := Step(cfg, s, CompactOp(now)).0;
            && (forall task :: task in CheckTriggers(cfg.compaction, s.levels) ==>
                  task.source < BOTTOM && (Relieved(t.levels, task) <==> !Stuck(cfg.compaction, s.levels, task.source)))
            && (Over(cfg.compaction, s.levels, 0) ==> t.levels[0] == [])
            && ((forall l :: 0 <= l < BOTTOM ==> !Over(cfg.compaction, s.levels, l)) ==> t == s)
  {
    hide Run, Step, Stuck, Relieved, CheckTriggers, Over, Inv;
    var s := Run(cfg, ops);
    RunKeeps(cfg, ops);
    CompactsByPlan(cfg, s, History(cfg, ops), now);
    forall task | task in CheckTriggers(cfg.compaction, s.levels)
      ensures task.source < BOTTOM && (Relieved(Step(cfg, s, CompactOp(now)).0.levels, task) <==> !Stuck(cfg.compaction, s.levels, task.source))
    {
      PlanRelieves(cfg, s, History(cfg, ops), now, task);
    }
    L0Empties(cfg, s, History(cfg, ops), now);
    if forall l :: 0 <= l < BOTTOM ==> !Over(cfg.compaction, s.levels, l) {
      NothingOver(cfg, s, now);
    }
  }

  /** Flushes compact: after one, L0 is within its count, in any run. */
  lemma {:induction false} FlushKeepsL0Small(cfg: EngineConfig, ops: seq<Op>, now: nat)
    requires Run(cfg, ops).frozen != []
    ensures |Step(cfg, Run(cfg, ops), FlushOp(now)).0.levels[0]| <= cfg.compaction.l0Trigger
  {
    hide Run, Inv, FlushOldest, RunTasks, CheckTriggers;
    var s, log := Run(cfg, ops), History(cfg, ops);
    RunKeeps(cfg, ops);
    FlushKeeps(cfg, s, log, now);
    var flushed := FlushOldest(cfg, s, now).0;
    CompactsByPlan(cfg, flushed, log, now);
    L0Empties(cfg, flushed, log, now);
    if !Over(cfg.compaction, flushed.levels, 0) {
      L0Untouched(cfg, flushed, log, now);
    }
  }

  /** Without an L0 task L0 stays as it is. */
  lemma {:induction false} L0Untouched(cfg: EngineConfig, s: State, log: seq<Entry>, now: nat)
    requires Inv(cfg, s, log) && !Over(cfg.compaction, s.levels, 0)
    ensures RunTasks(cfg, s, CheckTriggers(cfg.compaction, s.levels), now).0.levels[0] == s.levels[0]
  {
    hide Inv, RunTasks, Chain, Proper, CheckTriggers, Over, IsTaskFor;
    var tasks := CheckTriggers(cfg.compaction, s.levels);
    ScheduledTasksFit(cfg.compaction, s.levels);
    TriggersIff(cfg.compaction, s.levels);
    assert forall i :: 0 <= i < |tasks| ==> tasks[i] in tasks;
    AboveUntouched(cfg, s, log, tasks, now, 0);
  }

  lemma CompactsByPlan(cfg: EngineConfig, s: State, log: seq<Entry>, now: nat)
    requires Inv(cfg, s, log)
    ensures Step(cfg, s, CompactOp(now)) == RunTasks(cfg, s, CheckTriggers(cfg.compaction, s.levels), now)
  {
    hide RunTasks, CheckTriggers;
  }

  lemma {:induction false} PlanRelieves(cfg: EngineConfig, s: State, log: seq<Entry>, now: nat, task: Task)
    requires Inv(cfg, s, log) && task in CheckTriggers(cfg.compaction, s.levels)
    ensures task.source < BOTTOM
    ensures Relieved(RunTasks(cfg, s, CheckTriggers(cfg.compaction, s.levels), now).0.levels, task)
            <==> !Stuck(cfg.compaction, s.levels, task.source)
  {
    hide Inv, Relieved, RunTasks, CheckTriggers, Chain, Proper, Over, IsTaskFor;
    var tasks := CheckTriggers(cfg.compaction, s.levels);
    ScheduledTasksFit(cfg.compaction, s.levels);
    TriggersIff(cfg.compaction, s.levels);
    var i :| 0 <= i < |tasks| && tasks[i] == task;
    AtMostThree(cfg, s.levels);
    if i == 0 {
      FirstRelieves(cfg, s, log, tasks, now);
      StuckIsThird(cfg, s.levels, task, i);
    } else if i == 1 {
      SecondRelieves(cfg, s, log, tasks, now);
      StuckIsThird(cfg, s.levels, task, i);
    } else {
      ThirdRelieves(cfg, s, log, tasks, now);
      StuckIff(cfg, s.levels);
    }
  }

  lemma AtMostThree(cfg: EngineConfig, levels: Levels)
    ensures |CheckTriggers(cfg.compaction, levels)| <= 3
  {
    hide CheckL0Trigger, CheckLevelTrigger;
  }

  /** Only a third task can be stuck. */
  lemma StuckIsThird(cfg: EngineConfig, levels: Levels, task: Task, i: nat)
    requires i < |CheckTriggers(cfg.compaction, levels)| && CheckTriggers(cfg.compaction, levels)[i] == task && i < 2 && task.source < BOTTOM
    ensures !Stuck(cfg.compaction, levels, task.source)
  {
    hide Over, CheckL0Trigger, CheckLevelTrigger;
    L0Task(cfg.compaction, levels);
    LevelTask(cfg.compaction, levels, 1);
    if Over(cfg.compaction, levels, 0) && Over(cfg.compaction, levels, 1) {
      assert CheckTriggers(cfg.compaction, levels)[i].source == i;
    }
  }

  lemma StuckIff(cfg: EngineConfig, levels: Levels)
    requires |CheckTriggers(cfg.compaction, levels)| == 3
    ensures var tasks := CheckTriggers(cfg.compaction, levels);
            && tasks[2].source == 2 && tasks[1].inputs != []
            && (Stuck(cfg.compaction, levels, 2) <==> tasks[1].inputs[0] in tasks[0].targets)
  {
    TriggersIff(cfg.compaction, levels);
    hide CheckTriggers, Over;
    var tasks := CheckTriggers(cfg.compaction, levels);
    assert tasks[0] in tasks && tasks[1] in tasks && tasks[2] in tasks;
    assert tasks[0].source == 0 && tasks[1].source == 1 && tasks[2].source == 2;
    assert IsTaskFor(levels, 0, tasks[0]) && IsTaskFor(levels, 1, tasks[1]);
    forall t | t in tasks
      ensures (t.source == 0 ==> t == tasks[0]) && (t.source == 1 ==> t == tasks[1])
    {
      var j :| 0 <= j < |tasks| && tasks[j] == t;
      assert j == 0 || j == 1 || j == 2;
    }
  }

  lemma {:induction false} L0Empties(cfg: EngineConfig, s: State, log: seq<Entry>, now: nat)
    requires Inv(cfg, s, log)
    ensures Over(cfg.compaction, s.levels, 0) ==> RunTasks(cfg, s, CheckTriggers(cfg.compaction, s.levels), now).0.levels[0] == []
  {
    hide Inv, RunTasks, Chain, Proper, CheckTriggers, NewTables;
    var tasks := CheckTriggers(cfg.compaction, s.levels);
    ScheduledTasksFit(cfg.compaction, s.levels);
    if Over(cfg.compaction, s.levels, 0) {
      L0First(cfg, s.levels);
      var next := FirstTask(cfg, s, log, tasks, now);
      EverythingRemoved(s.levels[0]);
      LaterSources(s.levels, tasks);
      AboveUntouched(cfg, next, log, tasks[1..], now, 0);
    }
  }

  lemma L0First(cfg: EngineConfig, levels: Levels)
    requires Over(cfg.compaction, levels, 0)
    ensures var tasks := CheckTriggers(cfg.compaction, levels); tasks != [] && tasks[0].source == 0 && tasks[0].inputs == levels[0]
  {
    L0Task(cfg.compaction, levels);
    hide CheckL0Trigger, CheckLevelTrigger, Over;
  }

  lemma EverythingRemoved(ts: seq<Table>)
    ensures MinusIds(ts, Ids(ts)) == []
  {
    MinusMembers(ts, Ids(ts));
    EmptyOrInhabited(MinusIds(ts, Ids(ts)));
  }

  lemma EmptyOrInhabited(ts: seq<Table>)
    ensures ts == [] || exists t :: t in ts
  {
    assert ts == [] || ts[0] in ts;
  }

  lemma NothingOver(cfg: EngineConfig, s: State, now: nat)
    requires forall l :: 0 <= l < BOTTOM ==> !Over(cfg.compaction, s.levels, l)
    ensures RunTasks(cfg, s, CheckTriggers(cfg.compaction, s.levels), now).0 == s
  {
    hide CheckL0Trigger, CheckLevelTrigger, Over;
    L0Task(cfg.compaction, s.levels);
    LevelTask(cfg.compaction, s.levels, 1);
    LevelTask(cfg.compaction, s.levels, 2);
    NothingToRun(cfg, s, now);
  }

  /** One table of one key in each of the three levels, all over their limits: the task of L2 is stuck. */
  lemma ThreeLevelsStick(cfg: Config, a: Table, b: Table, c: Table)
    requires cfg.l0Trigger == 0 && cfg.l1MaxBytes < b.size && cfg.l2MaxBytes < c.size
    requires a.minKey == a.maxKey == b.minKey == b.maxKey
    ensures Stuck(cfg, [[a], [b], [c], []], 2)
  {
    var levels: Levels := [[a], [b], [c], []];
    LtIrreflexive(a.minKey);
    LevelSizeIsSum([], [], b);
    LevelSizeIsSum([], [], c);
    var t0, t1 := CheckL0Trigger(cfg, levels).value, CheckLevelTrigger(cfg, levels, 1).value;
    assert t1.inputs == [b] && b in t0.targets;
    assert t0 in CheckTriggers(cfg, levels) && t1 in CheckTriggers(cfg, levels);
  }
}
