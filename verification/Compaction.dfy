/** Choosing and running compactions (crates/flushdb-engine/src/compaction/scheduler.rs and
    executor.rs). */
module Compaction {
  import opened Wrappers
  import opened ByteStrings
  import opened CompositeKeys
  import opened Entries
  import opened Tables
  import opened Manifests
  import opened MergeIteration

  datatype Config = Config(
    sst: SstConfig,
    l0Trigger: nat,
    l0Stop: nat,
    l1MaxBytes: nat,
    l2MaxBytes: nat,
    fragmentTarget: nat)

  datatype TaskType = L0ToL1 | LevelToLevel

  datatype Task = Task(kind: TaskType, source: nat, target: nat, inputs: seq<Table>, targets: seq<Table>)

  // --- Scheduler ---

  function CombinedMin(ts: seq<Table>): Bytes
    requires ts != []
  {
    if |ts| == 1 then ts[0].minKey else Min(CombinedMin(ts[..|ts| - 1]), ts[|ts| - 1].minKey)
  }

  function CombinedMax(ts: seq<Table>): Bytes
    requires ts != []
  {
    if |ts| == 1 then ts[0].maxKey else Max(CombinedMax(ts[..|ts| - 1]), ts[|ts| - 1].maxKey)
  }

  method CombinedKeyRange(ts: seq<Table>) returns (r: Option<(Bytes, Bytes)>)
    ensures r == if ts == [] then None else Some((CombinedMin(ts), CombinedMax(ts)))
  {
    if ts == [] {
      return None;
    }
    var lo, hi := ts[0].minKey, ts[0].maxKey;
    var i := 1;
    while i < |ts|
      invariant 1 <= i <= |ts|
      invariant lo == CombinedMin(ts[..i]) && hi == CombinedMax(ts[..i])
    {
      if Lt(ts[i].minKey, lo) {
        lo := ts[i].minKey;
      }
      if Lt(hi, ts[i].maxKey) {
        hi := ts[i].maxKey;
      }
      i := i + 1;
      assert ts[..i][..i - 1] == ts[..i - 1];
    }
    assert ts[..|ts|] == ts;
    return Some((lo, hi));
  }

  function LevelSize(ts: seq<Table>): nat {
    if ts == [] then 0 else ts[0].size + LevelSize(ts[1..])
  }

  /** The first table with the earliest creation time. */
  function Oldest(ts: seq<Table>): (t: Table)
    requires ts != []
    ensures t in ts && forall s :: s in ts ==> t.createdAt <= s.createdAt
  {
    var last := ts[|ts| - 1];
    if |ts| == 1 then last
    else
      var t := Oldest(ts[..|ts| - 1]);
      assert ts == ts[..|ts| - 1] + [last];
      if last.createdAt < t.createdAt then last else t
  }

  function CheckL0Trigger(cfg: Config, levels: Levels): Option<Task> {
    var l0 := levels[0];
    if |l0| <= cfg.l0Trigger then None
    else Some(Task(L0ToL1, 0, 1, l0, FindOverlapping(levels[1], CombinedMin(l0), CombinedMax(l0))))
  }

  function CheckLevelTrigger(cfg: Config, levels: Levels, level: nat): Option<Task>
    requires level == 1 || level == 2
  {
    var maxBytes := if level == 1 then cfg.l1MaxBytes else cfg.l2MaxBytes;
    if levels[level] == [] || LevelSize(levels[level]) <= maxBytes then None
    else
      var input := Oldest(levels[level]);
      Some(Task(LevelToLevel, level, level + 1, [input], FindOverlapping(levels[level + 1], input.minKey, input.maxKey)))
  }

  function Listed(t: Option<Task>): seq<Task> {
    if t.Some? then [t.value] else []
  }

  function CheckTriggers(cfg: Config, levels: Levels): seq<Task> {
    Listed(CheckL0Trigger(cfg, levels)) + Listed(CheckLevelTrigger(cfg, levels, 1)) + Listed(CheckLevelTrigger(cfg, levels, 2))
  }

  // --- Executor ---

  function EntrySize(e: Entry): nat {
    |e.key| + |e.value| + |e.metadata| + 20
  }

  /** Tombstones are dropped when the output goes to the bottom level. */
  function Surviving(es: seq<Entry>, bottom: bool): seq<Entry> {
    if es == [] then []
    else if bottom && es[0].IsTombstone() then Surviving(es[1..], bottom)
    else [es[0]] + Surviving(es[1..], bottom)
  }

  /** A fragment is closed as soon as its size reaches the target. */
  function Fragments(current: seq<Entry>, size: nat, es: seq<Entry>, target: nat): seq<seq<Entry>>
    decreases |es|
  {
    if es == [] then
      if current == [] then [] else [current]
    else
      var grown := current + [es[0]];
      var bigger := size + EntrySize(es[0]);
      if bigger >= target then [grown] + Fragments([], 0, es[1..], target)
      else Fragments(grown, bigger, es[1..], target)
  }

  function ContentsOf(ts: seq<Table>): (r: seq<seq<Entry>>)
    ensures |r| == |ts| && forall i :: 0 <= i < |ts| ==> r[i] == ts[i].Contents()
  {
    seq(|ts|, i requires 0 <= i < |ts| => ts[i].Contents())
  }

  lemma {:induction false} FragmentsCut(current: seq<Entry>, size: nat, es: seq<Entry>, target: nat)
    ensures Flatten(Fragments(current, size, es, target)) == current + es
    ensures forall i :: 0 <= i < |Fragments(current, size, es, target)| ==> Fragments(current, size, es, target)[i] != []
    decreases |es|
  {
    if es != [] {
      var grown := current + [es[0]];
      assert grown + es[1..] == current + es;
      FragmentsCut([], 0, es[1..], target);
      FragmentsCut(grown, size + EntrySize(es[0]), es[1..], target);
    }
  }

  /** What a fragment is measured by: keys, values and metadata, and twenty bytes an entry. */
  function FragmentSize(es: seq<Entry>): nat {
    if es == [] then 0
    else
      var e := es[|es| - 1];
      FragmentSize(es[..|es| - 1]) + |e.key| + |e.value| + |e.metadata| + 20
  }

  /** Where the executor cuts: every fragment but the last has reached the target, and none had reached
      it one entry earlier. */
  ghost predicate CutAtSize(fragments: seq<seq<Entry>>, target: nat) {
    forall i :: 0 <= i < |fragments| ==>
      && fragments[i] != []
      && (|fragments[i]| == 1 || FragmentSize(fragments[i][..|fragments[i]| - 1]) < target)
      && (i < |fragments| - 1 ==> FragmentSize(fragments[i]) >= target)
  }

  lemma CutFirst(first: seq<Entry>, rest: seq<seq<Entry>>, target: nat)
    requires CutAtSize(rest, target) && first != [] && FragmentSize(first) >= target
    requires |first| == 1 || FragmentSize(first[..|first| - 1]) < target
    ensures CutAtSize([first] + rest, target)
  {
    hide FragmentSize;
  }

  lemma GrownSize(current: seq<Entry>, e: Entry)
    ensures FragmentSize(current + [e]) == FragmentSize(current) + EntrySize(e) && (current + [e])[..|current|] == current
  {
  }

  lemma {:induction false} FragmentsReachTarget(current: seq<Entry>, size: nat, es: seq<Entry>, target: nat)
    requires size == FragmentSize(current) && (current == [] || size < target)
    requires |current| <= 1 || FragmentSize(current[..|current| - 1]) < target
    ensures CutAtSize(Fragments(current, size, es, target), target)
    decreases |es|
  {
    hide FragmentSize, EntrySize;
    if es != [] {
      hide CutAtSize;
      var grown, bigger := current + [es[0]], size + EntrySize(es[0]);
      GrownSize(current, es[0]);
      if bigger >= target {
        NothingMeasured();
        FragmentsReachTarget([], 0, es[1..], target);
        CutFirst(grown, Fragments([], 0, es[1..], target), target);
      } else {
        FragmentsReachTarget(grown, bigger, es[1..], target);
      }
    }
  }

  lemma NothingMeasured()
    ensures FragmentSize([]) == 0
  {
  }

  function WriteFragments(sst: SstConfig, fragments: seq<seq<Entry>>, id: nat, now: nat): (r: seq<Table>)
    requires forall i :: 0 <= i < |fragments| ==> fragments[i] != []
    ensures |r| == |fragments|
  {
    seq(|fragments|, i requires 0 <= i < |fragments| => WriteTable(sst, id + i, fragments[i], now))
  }

  /** The tables a merging compaction writes. */
  function Outputs(cfg: Config, task: Task, id: nat, now: nat): seq<Table> {
    var merged := Dedup(Merge(ContentsOf(task.inputs + task.targets)));
    var kept := Surviving(merged, task.target == BOTTOM);
    FragmentsCut([], 0, kept, cfg.fragmentTarget);
    WriteFragments(cfg.sst, Fragments([], 0, kept, cfg.fragmentTarget), id, now)
  }

  predicate IsTrivialMove(task: Task) {
    task.kind == LevelToLevel && task.targets == []
  }

  function Moved(ts: seq<Table>, now: nat): (r: seq<Table>)
    ensures |r| == |ts|
  {
    seq(|ts|, i requires 0 <= i < |ts| => ts[i].(createdAt := now))
  }

  function At(level: nat, ts: seq<Table>): (r: seq<(nat, Table)>)
    ensures |r| == |ts| && forall i :: 0 <= i < |ts| ==> r[i] == (level, ts[i])
  {
    seq(|ts|, i requires 0 <= i < |ts| => (level, ts[i]))
  }

  function IdsAt(level: nat, ts: seq<Table>): (r: seq<(nat, nat)>)
    ensures |r| == |ts| && forall i :: 0 <= i < |ts| ==> r[i] == (level, ts[i].id)
  {
    seq(|ts|, i requires 0 <= i < |ts| => (level, ts[i].id))
  }

  function CompactionUpdate(cfg: Config, task: Task, m: Manifest, id: nat, now: nat): Update {
    if IsTrivialMove(task) then
      Update(ByCompaction, At(task.target, Moved(task.inputs, now)), IdsAt(task.source, task.inputs), None, m.writerEpoch, m.compactorEpoch)
    else
      Update(ByCompaction, At(task.target, Outputs(cfg, task, id, now)),
             IdsAt(task.source, task.inputs) + IdsAt(task.target, task.targets), None, m.writerEpoch, m.compactorEpoch)
  }

  /** Running a task against the manifest of its only writer: a task whose tables are gone is
      rejected and changes nothing. */
  function Execute(cfg: Config, task: Task, m: Manifest, id: nat, now: nat): Result<Manifest> {
    var u := CompactionUpdate(cfg, task, m, id, now);
    if !ValidUpdate(u, m) then Err(InvalidArgument) else Apply(u, m, now)
  }

  function IdsUsed(cfg: Config, task: Task): nat {
    if IsTrivialMove(task) then 0 else |Outputs(cfg, task, 0, 0)|
  }

  /** The merge loop of `execute`: pull deduplicated entries, drop bottom tombstones, cut fragments,
      write each as a table. */
  method MergeAndWrite(cfg: Config, task: Task, id: nat, now: nat) returns (outputs: seq<Table>, dropped: nat)
    ensures outputs == Outputs(cfg, task, id, now)
    ensures dropped + |Surviving(Dedup(Merge(ContentsOf(task.inputs + task.targets))), task.target == BOTTOM)|
            == |Dedup(Merge(ContentsOf(task.inputs + task.targets)))|
  {
    var sources := ContentsOf(task.inputs + task.targets);
    var fragments;
    fragments, dropped := MergeFragments(sources, task.target == BOTTOM, cfg.fragmentTarget);
    FragmentsCut([], 0, Surviving(Dedup(Merge(sources)), task.target == BOTTOM), cfg.fragmentTarget);
    outputs := WriteFragments(cfg.sst, fragments, id, now);
  }

  method MergeFragments(sources: seq<seq<Entry>>, bottom: bool, target: nat) returns (fragments: seq<seq<Entry>>, dropped: nat)
    ensures fragments == Fragments([], 0, Surviving(Dedup(Merge(sources)), bottom), target)
    ensures dropped + |Surviving(Dedup(Merge(sources)), bottom)| == |Dedup(Merge(sources))|
  {
    hide Merge, Dedup;
    var iter := new MergeIterator(sources);
    var current: seq<Entry>, size: nat := [], 0;
    fragments, dropped := [], 0;
    ghost var merged := Dedup(Merge(sources));
    ghost var todo := merged;
    while true
      invariant iter.Valid() && fresh(iter)
      invariant todo == Dedup(iter.Rest())
      invariant fragments + Fragments(current, size, Surviving(todo, bottom), target) == Fragments([], 0, Surviving(merged, bottom), target)
      invariant |merged| - |Surviving(merged, bottom)| == dropped + |todo| - |Surviving(todo, bottom)|
      decreases |todo|
    {
      var next := iter.NextDeduped();
      if next == None {
        break;
      }
      var e := next.value;
      ghost var rest := Surviving(todo[1..], bottom);
      todo := todo[1..];
      if bottom && e.IsTombstone() {
        dropped := dropped + 1;
      } else {
        FragmentStep(fragments, current, size, e, rest, target);
        current, size := current + [e], size + EntrySize(e);
        if size >= target {
          fragments, current, size := fragments + [current], [], 0;
        }
      }
    }
    if current != [] {
      fragments := fragments + [current];
    }
  }

  lemma FragmentStep(done: seq<seq<Entry>>, current: seq<Entry>, size: nat, e: Entry, rest: seq<Entry>, target: nat)
    ensures done + Fragments(current, size, [e] + rest, target)
            == if size + EntrySize(e) >= target then done + [current + [e]] + Fragments([], 0, rest, target)
               else done + Fragments(current + [e], size + EntrySize(e), rest, target)
  {
    assert ([e] + rest)[1..] == rest;
  }
}
