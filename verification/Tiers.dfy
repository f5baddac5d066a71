/** The meaning of a store: versions held in tiers, newest tier first, against the log of every
    write ever accepted. */
module Tiers {
  import opened Wrappers
  import opened ByteStrings
  import opened Entries
  import opened Tables
  import opened Manifests
  import opened MergeIteration
  import opened Compaction
  import opened LevelInvariants

  type Tier = set<Entry>

  /** Writes carry increasing sequence numbers. */
  ghost predicate LogOrdered(log: seq<Entry>) {
    forall i, j :: 0 <= i < j < |log| ==> log[i].seqno < log[j].seqno
  }

  /** All versions of a key in `a` are newer than those in `b`. */
  ghost predicate Newer(a: Tier, b: Tier) {
    forall e, f :: e in a && f in b && e.key == f.key ==> e.seqno > f.seqno
  }

  ghost predicate Ordered(tiers: seq<Tier>) {
    forall i, j :: 0 <= i < j < |tiers| ==> Newer(tiers[i], tiers[j])
  }

  ghost predicate HasVersion(tier: Tier, k: Bytes) {
    exists e :: e in tier && e.key == k
  }

  ghost predicate InSomeTier(tiers: seq<Tier>, e: Entry) {
    exists i :: 0 <= i < |tiers| && e in tiers[i]
  }

  ghost predicate NoVersion(tiers: seq<Tier>, k: Bytes) {
    forall i :: 0 <= i < |tiers| ==> !HasVersion(tiers[i], k)
  }

  /** The last write to `k` is stored, unless it is a deletion of which nothing is left. */
  ghost predicate Shown(tiers: seq<Tier>, log: seq<Entry>, k: Bytes) {
    var last := Newest(log, k);
    last.Some? ==> InSomeTier(tiers, last.value) || (last.value.IsTombstone() && NoVersion(tiers, k))
  }

  ghost predicate Faithful(tiers: seq<Tier>, log: seq<Entry>) {
    && (forall i, e :: 0 <= i < |tiers| && e in tiers[i] ==> e in log)
    && (forall k :: Shown(tiers, log, k))
  }

  lemma SameSeqnoInLog(log: seq<Entry>, e: Entry, f: Entry)
    requires LogOrdered(log) && e in log && f in log && e.seqno == f.seqno
    ensures e == f
  {
    var i :| 0 <= i < |log| && log[i] == e;
    var j :| 0 <= j < |log| && log[j] == f;
    assert i == j;
  }

  /** The newest version in the first tier that knows the key is the last write to it. */
  lemma FirstTierWins(tiers: seq<Tier>, log: seq<Entry>, k: Bytes, i: nat, e: Entry)
    requires Ordered(tiers) && Faithful(tiers, log) && LogOrdered(log)
    requires i < |tiers| && e in tiers[i] && e.key == k
    requires forall f :: f in tiers[i] && f.key == k ==> f.seqno <= e.seqno
    requires forall j :: 0 <= j < i ==> !HasVersion(tiers[j], k)
    ensures Newest(log, k) == Some(e)
  {
    assert Shown(tiers, log, k);
    var last := Newest(log, k).value;
    assert HasVersion(tiers[i], k);
    var j :| 0 <= j < |tiers| && last in tiers[j];
    assert j >= i by {
      if j < i {
        assert HasVersion(tiers[j], k);
      }
    }
    assert Newer(tiers[i], tiers[j]) || i == j;
    SameSeqnoInLog(log, e, last);
  }

  /** What replacing two neighbouring tiers may lose: nothing but older versions, and at the bottom
      a deletion that was the last version of its key. */
  ghost predicate Retains(before: Tier, after: Tier, bottom: bool) {
    forall m {:trigger Dominant(m, before)} :: Dominant(m, before) ==>
      m in after || (bottom && m.IsTombstone() && !HasVersion(after, m.key))
  }

  ghost predicate Dominant(m: Entry, tier: Tier) {
    m in tier && forall f :: f in tier && f.key == m.key ==> f.seqno <= m.seqno
  }

  lemma {:induction false} ReplaceTiers(tiers: seq<Tier>, log: seq<Entry>, a: nat, upper: Tier, lower: Tier)
    requires Ordered(tiers) && Faithful(tiers, log) && LogOrdered(log)
    requires a + 1 < |tiers|
    requires upper <= tiers[a] && lower <= tiers[a] + tiers[a + 1]
    requires Newer(upper, lower)
    requires Retains(tiers[a] + tiers[a + 1], upper + lower, a + 2 == |tiers|)
    ensures Ordered(tiers[a := upper][a + 1 := lower])
    ensures Faithful(tiers[a := upper][a + 1 := lower], log)
  {
    var after := tiers[a := upper][a + 1 := lower];
    forall i, j | 0 <= i < j < |after|
      ensures Newer(after[i], after[j])
    {
      ReplaceOrdered(tiers, a, upper, lower, i, j);
    }
    forall k
      ensures Shown(after, log, k)
    {
      ReplaceShown(tiers, log, a, upper, lower, k);
    }
  }

  lemma ReplaceOrdered(tiers: seq<Tier>, a: nat, upper: Tier, lower: Tier, i: nat, j: nat)
    requires Ordered(tiers) && a + 1 < |tiers| && i < j < |tiers|
    requires upper <= tiers[a] && lower <= tiers[a] + tiers[a + 1] && Newer(upper, lower)
    ensures var after := tiers[a := upper][a + 1 := lower]; Newer(after[i], after[j])
  {
    var after := tiers[a := upper][a + 1 := lower];
    assert i < a ==> Newer(tiers[i], tiers[a]) && Newer(tiers[i], tiers[a + 1]);
    assert j > a + 1 ==> Newer(tiers[a], tiers[j]) && Newer(tiers[a + 1], tiers[j]);
    assert Newer(tiers[i], tiers[j]);
    assert i == a && j == a + 1 ==> after[i] == upper && after[j] == lower;
  }

  lemma ReplaceShown(tiers: seq<Tier>, log: seq<Entry>, a: nat, upper: Tier, lower: Tier, k: Bytes)
    requires Ordered(tiers) && Faithful(tiers, log) && LogOrdered(log)
    requires a + 1 < |tiers|
    requires upper <= tiers[a] && lower <= tiers[a] + tiers[a + 1]
    requires Retains(tiers[a] + tiers[a + 1], upper + lower, a + 2 == |tiers|)
    ensures Shown(tiers[a := upper][a + 1 := lower], log, k)
  {
    var after := tiers[a := upper][a + 1 := lower];
    var last := Newest(log, k);
    if last.Some? {
      var m := last.value;
      assert Shown(tiers, log, k);
      if InSomeTier(tiers, m) {
        var i :| 0 <= i < |tiers| && m in tiers[i];
        if i != a && i != a + 1 {
          assert m in after[i];
        } else {
          assert Dominant(m, tiers[a] + tiers[a + 1]);
          if m in upper + lower {
            assert m in after[a] || m in after[a + 1];
          } else {
            forall j | 0 <= j < |after|
              ensures !HasVersion(after[j], k)
            {
              if j < a {
                assert Newer(tiers[j], tiers[i]);
              } else {
                assert forall f :: f in after[j] ==> f in upper + lower;
              }
            }
          }
        }
      } else {
        forall j | 0 <= j < |after|
          ensures !HasVersion(after[j], k)
        {
          assert !HasVersion(tiers[j], k) && !HasVersion(tiers[a], k) && !HasVersion(tiers[a + 1], k);
        }
      }
    }
  }

  // --- Levels as tiers ---

  ghost function Versions(ts: seq<Table>): Tier {
    set t, e | t in ts && e in t.Contents() :: e
  }

  ghost function LevelTiers(levels: Levels): seq<Tier> {
    [Versions(levels[0]), Versions(levels[1]), Versions(levels[2]), Versions(levels[3])]
  }

  ghost predicate Logged(tier: Tier, log: seq<Entry>) {
    LogOrdered(log) && forall e :: e in tier ==> e in log
  }

  /** A version left behind in the source level shares its key with no input. */
  lemma LeftBehindIsApart(cfg: Config, levels: Levels, task: Task, e: Entry, f: Entry)
    requires ValidLevels(cfg, levels) && Proper(levels, task)
    requires Holds(MinusIds(levels[task.source], Ids(task.inputs)), e) && Holds(task.inputs, f)
    ensures e.key != f.key
  {
    MinusMembers(levels[task.source], Ids(task.inputs));
    var s :| s in MinusIds(levels[task.source], Ids(task.inputs)) && e in s.Contents();
    var t :| t in task.inputs && f in t.Contents();
    assert s in levels[task.source] && s.id !in Ids(task.inputs) && t.id in Ids(task.inputs);
    if task.source > 0 {
      InputsInSource(cfg, levels, task);
      assert GoodTable(cfg, task.source, s) && GoodTable(cfg, task.source, t);
      KeyInRange(cfg.sst, s, e);
      KeyInRange(cfg.sst, t, f);
      DisjointMembers(levels[task.source], s, t);
      ApartKeysDiffer(s, t, e.key, f.key);
    }
  }

  lemma ApartKeysDiffer(s: Table, t: Table, k: Bytes, l: Bytes)
    requires Apart(s, t) && s.ContainsKey(k) && t.ContainsKey(l)
    ensures k != l
  {
    LtIsStrictTotalOrder();
    hide Lt;
  }

  /** A version in an untouched table of the target level shares its key with nothing merged. */
  lemma UntouchedIsApart(cfg: Config, levels: Levels, task: Task, t: Table, e: Entry, f: Entry)
    requires ValidLevels(cfg, levels) && Proper(levels, task)
    requires t in levels[task.target] && t !in task.targets && e in t.Contents()
    requires Holds(task.inputs + task.targets, f)
    ensures e.key != f.key
  {
    assert MergedKey(task, f.key);
    UntouchedTableIsApart(cfg, levels, task, t, f.key, f.key);
    assert GoodTable(cfg, task.target, t);
    KeyInRange(cfg.sst, t, e);
    LtIsStrictTotalOrder();
    hide Lt;
  }

  lemma VersionsUnion(ts: seq<Table>, a: seq<Table>, b: seq<Table>)
    requires forall t :: t in ts <==> t in a || t in b
    ensures Versions(ts) == Versions(a) + Versions(b)
  {
  }

  ghost function Untouched(levels: Levels, task: Task): seq<Table>
    requires task.target < LEVELS
  {
    MinusIds(levels[task.target], Ids(task.targets))
  }

  ghost function LeftBehind(levels: Levels, task: Task): seq<Table>
    requires task.source < LEVELS
  {
    MinusIds(levels[task.source], Ids(task.inputs))
  }

  lemma PickedById(cfg: Config, levels: Levels, l: nat, picked: seq<Table>)
    requires ValidLevels(cfg, levels) && l < LEVELS
    requires forall t :: t in picked ==> t in levels[l]
    ensures forall t :: t in levels[l] ==> (t.id in Ids(picked) <==> t in picked)
  {
    forall t | t in levels[l] && t.id in Ids(picked)
      ensures t in picked
    {
      var x :| x in picked && x.id == t.id;
      assert x in levels[l];
    }
  }

  /** Both levels, before and after, as unions of what moves and what stays. */
  lemma Parts(cfg: Config, levels: Levels, task: Task, after: Levels, outs: seq<Table>)
    requires ValidLevels(cfg, levels) && Proper(levels, task) && Replaced(levels, after, task, outs)
    ensures Versions(levels[task.source]) == Versions(LeftBehind(levels, task)) + Versions(task.inputs)
    ensures Versions(levels[task.target]) == Versions(Untouched(levels, task)) + Versions(task.targets)
    ensures Versions(after[task.source]) == Versions(LeftBehind(levels, task))
    ensures Versions(after[task.target]) == Versions(Untouched(levels, task)) + Versions(outs)
  {
    InputsInSource(cfg, levels, task);
    PickedById(cfg, levels, task.source, task.inputs);
    PickedById(cfg, levels, task.target, task.targets);
    MinusMembers(levels[task.source], Ids(task.inputs));
    MinusMembers(levels[task.target], Ids(task.targets));
    hide ValidLevels, Versions, MinusIds;
    VersionsUnion(levels[task.source], LeftBehind(levels, task), task.inputs);
    VersionsUnion(levels[task.target], Untouched(levels, task), task.targets);
    VersionsUnion(after[task.target], Untouched(levels, task), outs);
  }

  ghost predicate NoSharedKeys(a: Tier, b: Tier) {
    forall e, f :: e in a && f in b ==> e.key != f.key
  }

  lemma Separations(cfg: Config, levels: Levels, task: Task)
    requires ValidLevels(cfg, levels) && Proper(levels, task)
    ensures NoSharedKeys(Versions(LeftBehind(levels, task)), Versions(task.inputs))
    ensures NoSharedKeys(Versions(Untouched(levels, task)), Versions(task.inputs + task.targets))
  {
    forall e, f | e in Versions(LeftBehind(levels, task)) && f in Versions(task.inputs)
      ensures e.key != f.key
    {
      LeftBehindIsApart(cfg, levels, task, e, f);
    }
    PickedById(cfg, levels, task.target, task.targets);
    MinusMembers(levels[task.target], Ids(task.targets));
    forall e, f | e in Versions(Untouched(levels, task)) && f in Versions(task.inputs + task.targets)
      ensures e.key != f.key
    {
      var t :| t in Untouched(levels, task) && e in t.Contents();
      UntouchedIsApart(cfg, levels, task, t, e, f);
    }
  }

  /** The set-level core of the argument. `stay`, `move` split the source level; `rest`, `merge`
      split the target level; `out` replaces `move + merge`. */
  lemma {:induction false} MergeStep(stay: Tier, move: Tier, rest: Tier, merge: Tier, out: Tier, bottom: bool)
    requires Newer(stay + move, rest + merge)
    requires NoSharedKeys(stay, move) && NoSharedKeys(rest, move + merge)
    requires out <= move + merge && Retains(move + merge, out, bottom)
    ensures Newer(stay, rest + out)
    ensures Retains((stay + move) + (rest + merge), stay + (rest + out), bottom)
  {
    var all, left := (stay + move) + (rest + merge), stay + (rest + out);
    forall m | Dominant(m, all)
      ensures m in left || (bottom && m.IsTombstone() && !HasVersion(left, m.key))
    {
      if m in move + merge && m !in left {
        assert Dominant(m, move + merge);
        forall e | e in left
          ensures e.key != m.key
        {
          if e in stay && m in merge {
            assert e in all;
          }
        }
      }
    }
  }

  /** What the outputs keep of the merged tables: every newest version, except deletions dropped at
      the bottom. */
  lemma OutputsRetain(cfg: Config, levels: Levels, task: Task, id: nat, now: nat, log: seq<Entry>)
    requires ValidLevels(cfg, levels) && Proper(levels, task)
    requires Logged(Versions(task.inputs + task.targets), log)
    ensures var out := Versions(NewTables(cfg, task, id, now));
            var merged := Versions(task.inputs + task.targets);
            out <= merged && Retains(merged, out, task.target == BOTTOM)
  {
    var merged := Versions(task.inputs + task.targets);
    var outs := NewTables(cfg, task, id, now);
    if IsTrivialMove(task) {
      assert task.inputs + task.targets == task.inputs;
      MoveKeepsVersions(task.inputs, now);
    } else {
      OutputTables(cfg, levels, task, id, now);
      MergedIsNewest(cfg, levels, task);
      var deduped := Dedup(Merge(ContentsOf(task.inputs + task.targets)));
      SurvivingMembers(deduped, task.target == BOTTOM);
      hide Outputs, ValidLevels, Proper, MergedKey, GoodTable, Inputs, Kept, Merge, Dedup;
      forall e
        ensures e in merged <==> e in Inputs(task)
      {
        HoldsContents(task.inputs + task.targets, e);
      }
      assert Kept(task) == Surviving(deduped, task.target == BOTTOM);
      SurvivorsRetain(merged, Inputs(task), deduped, Kept(task), Versions(outs), task.target == BOTTOM, log);
    }
  }

  lemma MoveKeepsVersions(ts: seq<Table>, now: nat)
    ensures Versions(Moved(ts, now)) == Versions(ts)
  {
    forall e
      ensures e in Versions(Moved(ts, now)) <==> e in Versions(ts)
    {
      if Holds(ts, e) {
        var t :| t in ts && e in t.Contents();
        var i :| 0 <= i < |ts| && ts[i] == t;
        assert Moved(ts, now)[i] in Moved(ts, now) && Moved(ts, now)[i].Contents() == t.Contents();
      }
      if Holds(Moved(ts, now), e) {
        var t :| t in Moved(ts, now) && e in t.Contents();
        var i :| 0 <= i < |ts| && Moved(ts, now)[i] == t;
        assert ts[i] in ts && ts[i].Contents() == t.Contents();
      }
    }
  }

  lemma SurvivorsRetain(merged: Tier, inputs: seq<Entry>, deduped: seq<Entry>, kept: seq<Entry>, out: Tier, bottom: bool, log: seq<Entry>)
    requires Logged(merged, log)
    requires forall e :: e in merged <==> e in inputs
    requires IsNewestPerKey(deduped, inputs)
    requires forall e :: e in kept <==> e in deduped && !(bottom && e.IsTombstone())
    requires forall e :: e in out <==> e in kept
    ensures out <= merged && Retains(merged, out, bottom)
  {
    forall m | Dominant(m, merged)
      ensures m in out || (bottom && m.IsTombstone() && !HasVersion(out, m.key))
    {
      assert HasKey(deduped, m.key);
      var e :| e in deduped && e.key == m.key;
      assert Dominates(e, inputs);
      SameSeqnoInLog(log, e, m);
      forall f | f in deduped && f.key == m.key
        ensures f == m
      {
        assert Dominates(f, inputs);
        SameSeqnoInLog(log, f, m);
      }
    }
  }

  /** Any scheduled compaction preserves meaning: merging, deduplication, fragmenting, trivial moves
      and dropping bottom tombstones change neither the order of tiers nor what is shown. */
  lemma {:induction false} CompactionIsFaithful(cfg: Config, task: Task, m: Manifest, id: nat, now: nat, upper: seq<Tier>, log: seq<Entry>)
    requires ValidLevels(cfg, m.levels) && Proper(m.levels, task) && IdsBelow(m.levels, id)
    requires LogOrdered(log)
    requires Ordered(upper + LevelTiers(m.levels)) && Faithful(upper + LevelTiers(m.levels), log)
    ensures Execute(cfg, task, m, id, now).Ok?
    ensures var after := Execute(cfg, task, m, id, now).value.levels;
            Ordered(upper + LevelTiers(after)) && Faithful(upper + LevelTiers(after), log)
  {
    ExecuteEffect(cfg, task, m, id, now);
    ReplacementIsFaithful(cfg, task, m.levels, id, now, upper, log, Execute(cfg, task, m, id, now).value.levels);
  }

  lemma {:induction false} ReplacementIsFaithful(cfg: Config, task: Task, levels: Levels, id: nat, now: nat, upper: seq<Tier>, log: seq<Entry>, after: Levels)
    requires ValidLevels(cfg, levels) && Proper(levels, task) && LogOrdered(log)
    requires Ordered(upper + LevelTiers(levels)) && Faithful(upper + LevelTiers(levels), log)
    requires Replaced(levels, after, task, NewTables(cfg, task, id, now))
    ensures Ordered(upper + LevelTiers(after)) && Faithful(upper + LevelTiers(after), log)
  {
    var outs := NewTables(cfg, task, id, now);
    var tiers := upper + LevelTiers(levels);
    var a := |upper| + task.source;
    TwoTiers(upper, levels, after, task, outs);
    hide NewTables, ValidLevels, Versions, Replaced, Ordered, Faithful, LevelTiers;
    Parts(cfg, levels, task, after, outs);
    Separations(cfg, levels, task);
    var stay, move, rest, merge := Versions(LeftBehind(levels, task)), Versions(task.inputs), Versions(Untouched(levels, task)), Versions(task.targets);
    VersionsUnion(task.inputs + task.targets, task.inputs, task.targets);
    AreLogged(tiers, log, a);
    OutputsRetain(cfg, levels, task, id, now, log);
    MergeStep(stay, move, rest, merge, Versions(outs), task.target == BOTTOM);
    ReplaceTiers(tiers, log, a, Versions(after[task.source]), Versions(after[task.target]));
  }

  lemma TwoTiers(upper: seq<Tier>, levels: Levels, after: Levels, task: Task, outs: seq<Table>)
    requires task.target == task.source + 1 < LEVELS && Replaced(levels, after, task, outs)
    ensures var tiers, a := upper + LevelTiers(levels), |upper| + task.source;
            && |tiers| == |upper| + LEVELS
            && tiers[a] == Versions(levels[task.source])
            && tiers[a + 1] == Versions(levels[task.target])
            && upper + LevelTiers(after) == tiers[a := Versions(after[task.source])][a + 1 := Versions(after[task.target])]
  {
    hide Versions;
    var tiers, a := upper + LevelTiers(levels), |upper| + task.source;
    assert LevelTiers(after) == LevelTiers(levels)[task.source := Versions(after[task.source])][task.target := Versions(after[task.target])];
  }

  lemma AreLogged(tiers: seq<Tier>, log: seq<Entry>, a: nat)
    requires Faithful(tiers, log) && Ordered(tiers) && a + 1 < |tiers|
    ensures forall e :: e in tiers[a] || e in tiers[a + 1] ==> e in log
    ensures Newer(tiers[a], tiers[a + 1])
  {
  }

  lemma AllLogged(levels: Levels, log: seq<Entry>, a: nat, b: nat)
    requires a < LEVELS && b < LEVELS && LogOrdered(log)
    requires forall i, f :: 0 <= i < LEVELS && f in Versions(levels[i]) ==> f in log
    ensures Logged(Versions(levels[a]) + Versions(levels[b]), log)
  {
    hide Versions;
  }

  /** No compaction invents a version. */
  lemma ReplacementAddsNothing(cfg: Config, task: Task, levels: Levels, id: nat, now: nat, log: seq<Entry>, after: Levels, l: nat, e: Entry)
    requires ValidLevels(cfg, levels) && Proper(levels, task) && LogOrdered(log)
    requires forall i, f :: 0 <= i < LEVELS && f in Versions(levels[i]) ==> f in log
    requires Replaced(levels, after, task, NewTables(cfg, task, id, now))
    requires l < LEVELS && e in Versions(after[l])
    ensures e in Versions(levels[l]) || (l == task.target && e in Versions(levels[task.source]))
  {
    var outs := NewTables(cfg, task, id, now);
    Parts(cfg, levels, task, after, outs);
    VersionsUnion(task.inputs + task.targets, task.inputs, task.targets);
    assert l != task.source && l != task.target ==> after[l] == levels[l];
    hide Versions, ValidLevels, NewTables, Replaced, Retains, LogOrdered;
    AllLogged(levels, log, task.source, task.target);
    OutputsRetain(cfg, levels, task, id, now, log);
  }
}
