/** What flushes and scheduled compactions keep of the levels: L1 to L3 stay sorted and disjoint,
    and a task that still finds its tables replaces them by tables of the same key range. */
module LevelInvariants {
  import opened Wrappers
  import opened ByteStrings
  import opened Entries
  import opened Tables
  import opened Manifests
  import opened MergeIteration
  import opened Compaction

  // --- Identity of tables ---

  ghost predicate DistinctIds(ts: seq<Table>) {
    forall i, j :: 0 <= i < j < |ts| ==> ts[i].id != ts[j].id
  }

  /** One id names one table of one level. */
  ghost predicate IdsIdentify(levels: Levels) {
    forall l, m, s, t :: 0 <= l < LEVELS && 0 <= m < LEVELS && s in levels[l] && t in levels[m] && s.id == t.id ==> l == m && s == t
  }

  ghost predicate IdsBelow(levels: Levels, bound: nat) {
    forall l, t :: 0 <= l < LEVELS && t in levels[l] ==> t.id < bound
  }

  ghost predicate GoodTable(cfg: Config, level: nat, t: Table) {
    WellFormed(cfg.sst, t) && (level > 0 ==> KeysIncreasing(t.Contents()))
  }

  ghost predicate ValidLevels(cfg: Config, levels: Levels) {
    && (forall l, t :: 0 <= l < LEVELS && t in levels[l] ==> GoodTable(cfg, l, t))
    && (forall l :: 1 <= l < LEVELS ==> SortedDisjoint(levels[l]))
    && DistinctIds(levels[0])
    && IdsIdentify(levels)
  }

  lemma LevelHasDistinctIds(cfg: Config, levels: Levels, l: nat)
    requires ValidLevels(cfg, levels) && l < LEVELS
    ensures DistinctIds(levels[l])
  {
    if l > 0 {
      forall i, j | 0 <= i < j < |levels[l]|
        ensures levels[l][i].id != levels[l][j].id
      {
        LtIsStrictTotalOrder();
        hide Lt;
        assert Lt(levels[l][i].maxKey, levels[l][j].minKey);
        assert levels[l][i] != levels[l][j];
      }
    }
  }

  // --- Removing a set of tables ---

  function Ids(ts: seq<Table>): set<nat> {
    set t | t in ts :: t.id
  }

  function MinusIds(ts: seq<Table>, ids: set<nat>): seq<Table> {
    if ts == [] then []
    else if ts[0].id in ids then MinusIds(ts[1..], ids)
    else [ts[0]] + MinusIds(ts[1..], ids)
  }

  lemma {:induction false} MinusMembers(ts: seq<Table>, ids: set<nat>)
    ensures forall t :: t in MinusIds(ts, ids) <==> t in ts && t.id !in ids
  {
    if ts != [] {
      MinusMembers(ts[1..], ids);
      assert forall t :: t in ts <==> t == ts[0] || t in ts[1..];
    }
  }

  lemma {:induction false} MinusNone(ts: seq<Table>, ids: set<nat>)
    requires forall t :: t in ts ==> t.id !in ids
    ensures MinusIds(ts, ids) == ts
  {
    if ts != [] {
      MinusNone(ts[1..], ids);
    }
  }

  lemma {:induction false} MinusTwice(ts: seq<Table>, a: set<nat>, b: set<nat>)
    ensures MinusIds(MinusIds(ts, a), b) == MinusIds(ts, a + b)
  {
    if ts != [] {
      MinusTwice(ts[1..], a, b);
      if ts[0].id !in a {
        assert MinusIds(ts, a)[1..] == MinusIds(ts[1..], a);
      }
    }
  }

  lemma {:induction false} MinusKeepsDistinct(ts: seq<Table>, ids: set<nat>)
    requires DistinctIds(ts)
    ensures DistinctIds(MinusIds(ts, ids))
  {
    if ts != [] {
      assert forall i :: 0 < i < |ts| ==> ts[i] == ts[1..][i - 1];
      MinusKeepsDistinct(ts[1..], ids);
      var r := MinusIds(ts[1..], ids);
      MinusMembers(ts[1..], ids);
      forall i | 0 <= i < |r|
        ensures r[i].id != ts[0].id
      {
        assert r[i] in ts[1..];
      }
    }
  }

  lemma {:induction false} MinusKeepsDisjoint(ts: seq<Table>, ids: set<nat>)
    requires SortedDisjoint(ts)
    ensures SortedDisjoint(MinusIds(ts, ids))
  {
    if ts != [] {
      assert forall i :: 0 < i < |ts| ==> ts[i] == ts[1..][i - 1];
      MinusKeepsDisjoint(ts[1..], ids);
      var r := MinusIds(ts[1..], ids);
      MinusMembers(ts[1..], ids);
      forall i | 0 <= i < |r|
        ensures Lt(ts[0].maxKey, r[i].minKey)
      {
        assert r[i] in ts[1..];
      }
    }
  }

  lemma {:induction false} RemoveAtIsMinus(ts: seq<Table>, p: nat)
    requires DistinctIds(ts) && p < |ts|
    ensures RemoveAt(ts, p) == MinusIds(ts, {ts[p].id})
  {
    assert forall i :: 0 < i < |ts| ==> ts[i] == ts[1..][i - 1];
    if p == 0 {
      MinusNone(ts[1..], {ts[0].id});
    } else {
      RemoveAtIsMinus(ts[1..], p - 1);
      assert RemoveAt(ts, p) == [ts[0]] + RemoveAt(ts[1..], p - 1);
    }
  }

  lemma RemoveOneIsMinus(levels: Levels, level: nat, x: Table)
    requires level < LEVELS && DistinctIds(levels[level]) && x in levels[level]
    ensures RemoveOne(levels, level, x.id) == Ok(levels[level := MinusIds(levels[level], {x.id})])
  {
    var p := PositionOf(levels[level], x.id);
    var i :| 0 <= i < |levels[level]| && levels[level][i] == x;
    RemoveAtIsMinus(levels[level], p.value);
  }

  lemma RestOfIds(ts: seq<Table>, level: nat, xs: seq<Table>)
    requires xs != []
    ensures MinusIds(MinusIds(ts, {xs[0].id}), Ids(xs[1..])) == MinusIds(ts, Ids(xs))
    ensures IdsAt(level, xs)[1..] == IdsAt(level, xs[1..])
  {
    MinusTwice(ts, {xs[0].id}, Ids(xs[1..]));
    assert {xs[0].id} + Ids(xs[1..]) == Ids(xs);
  }

  lemma {:induction false} RemoveAllIsMinus(levels: Levels, level: nat, xs: seq<Table>)
    requires level < LEVELS && DistinctIds(levels[level]) && DistinctIds(xs)
    requires forall x :: x in xs ==> x in levels[level]
    ensures RemoveAll(levels, IdsAt(level, xs)) == Ok(levels[level := MinusIds(levels[level], Ids(xs))])
    decreases |xs|
  {
    if xs == [] {
      MinusNone(levels[level], Ids(xs));
      assert levels[level := levels[level]] == levels;
    } else {
      var ts := levels[level];
      RemoveOneIsMinus(levels, level, xs[0]);
      var next := levels[level := MinusIds(ts, {xs[0].id})];
      MinusKeepsDistinct(ts, {xs[0].id});
      MinusMembers(ts, {xs[0].id});
      assert forall i :: 0 < i < |xs| ==> xs[i] == xs[1..][i - 1];
      forall x | x in xs[1..]
        ensures x in next[level]
      {
        var i :| 0 <= i < |xs[1..]| && xs[1..][i] == x;
        assert x == xs[i + 1];
      }
      RemoveAllIsMinus(next, level, xs[1..]);
      RestOfIds(ts, level, xs);
      var rest := MinusIds(ts, Ids(xs));
      assert next[level := rest] == levels[level := rest];
      assert IdsAt(level, xs)[0] == (level, xs[0].id);
      assert RemoveAll(levels, IdsAt(level, xs)) == RemoveAll(next, IdsAt(level, xs)[1..]);
    }
  }

  lemma {:induction false} RemoveAllAppend(levels: Levels, a: seq<(nat, nat)>, b: seq<(nat, nat)>)
    requires RemoveAll(levels, a).Ok?
    ensures RemoveAll(levels, a + b) == RemoveAll(RemoveAll(levels, a).value, b)
    decreases |a|
  {
    if a == [] {
      assert a + b == b;
    } else {
      assert (a + b)[1..] == a[1..] + b;
      RemoveAllAppend(RemoveOne(levels, a[0].0, a[0].1).value, a[1..], b);
    }
  }

  // --- Adding disjoint tables ---

  lemma {:induction false} AddAllDisjoint(levels: Levels, level: nat, outs: seq<Table>) returns (ts: seq<Table>)
    requires 0 < level < LEVELS && SortedDisjoint(levels[level]) && SortedDisjoint(outs)
    requires forall o :: o in outs ==> DisjointFrom(o, levels[level])
    ensures AddAll(levels, At(level, outs)) == levels[level := ts]
    ensures SortedDisjoint(ts)
    ensures forall t :: t in ts <==> t in levels[level] || t in outs
    decreases |outs|
  {
    ts := levels[level];
    if outs == [] {
      assert levels[level := ts] == levels;
    } else {
      var o := outs[0];
      AddKeepsDisjoint(ts, o);
      var next := levels[level := SortByMin(ts + [o])];
      assert forall i :: 0 < i < |outs| ==> outs[i] == outs[1..][i - 1];
      forall x | x in outs[1..]
        ensures DisjointFrom(x, next[level])
      {
        var i :| 0 <= i < |outs[1..]| && outs[1..][i] == x;
        assert x == outs[i + 1] && x in outs && Lt(o.maxKey, x.minKey);
      }
      ts := AddAllDisjoint(next, level, outs[1..]);
      assert At(level, outs)[1..] == At(level, outs[1..]);
      assert next[level := ts] == levels[level := ts];
    }
  }

  // --- Key ranges ---

  /** Every key of the tables lies in their combined range. */
  lemma {:induction false} CombinedCovers(ts: seq<Table>, t: Table)
    requires t in ts
    ensures Le(CombinedMin(ts), t.minKey) && Le(t.maxKey, CombinedMax(ts))
  {
    LtIsStrictTotalOrder();
    hide Lt;
    if |ts| > 1 {
      var n := |ts| - 1;
      assert ts == ts[..n] + [ts[n]];
      if t in ts[..n] {
        CombinedCovers(ts[..n], t);
      }
    }
  }

  lemma KeyInRange(cfg: SstConfig, t: Table, e: Entry)
    requires WellFormed(cfg, t) && e in t.Contents()
    ensures t.ContainsKey(e.key)
    ensures Le(t.minKey, t.maxKey)
  {
    LtIsStrictTotalOrder();
    var es := t.Contents();
    var p :| 0 <= p < |es| && es[p] == e;
    assert p > 0 ==> Before(es[0], es[p]);
    assert p < |es| - 1 ==> Before(es[p], es[|es| - 1]);
  }

  /** A table of the target level that no input overlaps has all the merged keys on one side. */
  lemma {:induction false} UntouchedTableIsApart(cfg: Config, levels: Levels, task: Task, t: Table, lo: Bytes, hi: Bytes)
    requires ValidLevels(cfg, levels) && Proper(levels, task)
    requires t in levels[task.target] && t !in task.targets
    requires MergedKey(task, lo) && MergedKey(task, hi)
    ensures Lt(hi, t.minKey) || Lt(t.maxKey, lo)
  {
    var a, b := CombinedMin(task.inputs), CombinedMax(task.inputs);
    assert !t.OverlapsRange(a, b);
    assert GoodTable(cfg, task.target, t);
    assert t.Contents()[0] in t.Contents();
    KeyInRange(cfg.sst, t, t.Contents()[0]);
    OneSide(cfg, levels, task, t, lo);
    OneSide(cfg, levels, task, t, hi);
    LtIsStrictTotalOrder();
    hide Lt;
    RangeNonempty(cfg, levels, task);
  }

  ghost predicate MergedKey(task: Task, k: Bytes) {
    exists t, e :: t in task.inputs + task.targets && e in t.Contents() && e.key == k
  }

  ghost predicate Proper(levels: Levels, task: Task) {
    && task.target == task.source + 1 < LEVELS
    && task.inputs != []
    && task.kind == (if task.source == 0 then L0ToL1 else LevelToLevel)
    && (task.source == 0 ==> task.inputs == levels[0])
    && (task.source > 0 ==> |task.inputs| == 1 && task.inputs[0] in levels[task.source])
    && task.targets == FindOverlapping(levels[task.target], CombinedMin(task.inputs), CombinedMax(task.inputs))
  }

  lemma RangeNonempty(cfg: Config, levels: Levels, task: Task)
    requires ValidLevels(cfg, levels) && Proper(levels, task)
    ensures Le(CombinedMin(task.inputs), CombinedMax(task.inputs))
  {
    var t := task.inputs[0];
    assert t in levels[task.source];
    assert GoodTable(cfg, task.source, t);
    CombinedCovers(task.inputs, t);
    assert t.Contents()[0] in t.Contents();
    KeyInRange(cfg.sst, t, t.Contents()[0]);
    LtIsStrictTotalOrder();
  }

  lemma OneSide(cfg: Config, levels: Levels, task: Task, t: Table, k: Bytes)
    requires ValidLevels(cfg, levels) && Proper(levels, task)
    requires t in levels[task.target] && t !in task.targets
    requires MergedKey(task, k)
    requires Le(t.minKey, t.maxKey)
    ensures Lt(CombinedMax(task.inputs), t.minKey) ==> Lt(k, t.minKey)
    ensures Lt(t.maxKey, CombinedMin(task.inputs)) ==> Lt(t.maxKey, k)
  {
    var a, b := CombinedMin(task.inputs), CombinedMax(task.inputs);
    var s, e :| s in task.inputs + task.targets && e in s.Contents() && e.key == k;
    if s in task.inputs {
      InputKeyInRange(cfg, levels, task, s, e);
    } else {
      assert s in levels[task.target] && s.OverlapsRange(a, b);
      assert GoodTable(cfg, task.target, s);
      KeyInRange(cfg.sst, s, e);
      DisjointMembers(levels[task.target], s, t);
    }
    SidesOfRange(a, b, s, t, k, s in task.inputs);
  }

  lemma InputKeyInRange(cfg: Config, levels: Levels, task: Task, s: Table, e: Entry)
    requires ValidLevels(cfg, levels) && Proper(levels, task)
    requires s in task.inputs && e in s.Contents()
    ensures Le(CombinedMin(task.inputs), e.key) && Le(e.key, CombinedMax(task.inputs))
  {
    assert s in levels[task.source];
    assert GoodTable(cfg, task.source, s);
    KeyInRange(cfg.sst, s, e);
    CombinedCovers(task.inputs, s);
    LtIsStrictTotalOrder();
    hide Lt;
  }

  lemma SidesOfRange(a: Bytes, b: Bytes, s: Table, t: Table, k: Bytes, input: bool)
    requires input ==> Le(a, k) && Le(k, b)
    requires !input ==> s.ContainsKey(k) && Apart(s, t) && s.OverlapsRange(a, b)
    requires Le(t.minKey, t.maxKey)
    ensures Lt(b, t.minKey) ==> Lt(k, t.minKey)
    ensures Lt(t.maxKey, a) ==> Lt(t.maxKey, k)
  {
    LtIsStrictTotalOrder();
    hide Lt;
  }

  lemma DisjointMembers(ts: seq<Table>, s: Table, t: Table)
    requires SortedDisjoint(ts) && s in ts && t in ts && s != t
    ensures Apart(s, t)
  {
    var i :| 0 <= i < |ts| && ts[i] == s;
    var j :| 0 <= j < |ts| && ts[j] == t;
    assert i < j || j < i;
  }

  // --- The tables a compaction writes ---

  lemma {:induction false} SurvivingMembers(es: seq<Entry>, bottom: bool)
    ensures forall e :: e in Surviving(es, bottom) <==> e in es && !(bottom && e.IsTombstone())
    ensures KeysIncreasing(es) ==> KeysIncreasing(Surviving(es, bottom))
  {
    if es != [] {
      SurvivingMembers(es[1..], bottom);
      assert forall i :: 0 < i < |es| ==> es[i] == es[1..][i - 1];
      assert forall e :: e in es <==> e == es[0] || e in es[1..];
      var r := Surviving(es[1..], bottom);
      if KeysIncreasing(es) {
        forall i | 0 <= i < |r|
          ensures Lt(es[0].key, r[i].key)
        {
          assert r[i] in es[1..];
        }
      }
    }
  }

  lemma {:induction false} PartKeysIncrease(parts: seq<seq<Entry>>, i: nat)
    requires KeysIncreasing(Flatten(parts)) && i < |parts|
    ensures KeysIncreasing(parts[i])
  {
    var all, rest := Flatten(parts), Flatten(parts[1..]);
    assert forall j :: 0 <= j < |parts[0]| ==> all[j] == parts[0][j];
    if i > 0 {
      assert forall j :: 0 <= j < |rest| ==> all[|parts[0]| + j] == rest[j];
      PartKeysIncrease(parts[1..], i - 1);
    }
  }

  /** Tables written from consecutive pieces of a list with increasing keys. */
  lemma FragmentTables(cfg: Config, fragments: seq<seq<Entry>>, id: nat, now: nat)
    requires forall i :: 0 <= i < |fragments| ==> fragments[i] != []
    requires KeysIncreasing(Flatten(fragments))
    ensures var ts := WriteFragments(cfg.sst, fragments, id, now);
            && SortedDisjoint(ts)
            && (forall i :: 0 <= i < |ts| ==> ts[i].Contents() == fragments[i] && ts[i].id == id + i && GoodTable(cfg, 1, ts[i]))
  {
    var ts := WriteFragments(cfg.sst, fragments, id, now);
    forall i | 0 <= i < |ts|
      ensures ts[i].Contents() == fragments[i] && ts[i].id == id + i && GoodTable(cfg, 1, ts[i])
      ensures ts[i].minKey == fragments[i][0].key && ts[i].maxKey == fragments[i][|fragments[i]| - 1].key
      ensures Le(ts[i].minKey, ts[i].maxKey)
    {
      PartKeysIncrease(fragments, i);
      WrittenTable(cfg.sst, id + i, fragments[i], now);
    }
    forall i, j | 0 <= i < j < |ts|
      ensures Lt(ts[i].maxKey, ts[j].minKey)
    {
      KeysAcrossBlocks(fragments, i, j, fragments[i][|fragments[i]| - 1], fragments[j][0]);
    }
  }

  ghost predicate Holds(ts: seq<Table>, e: Entry) {
    exists t :: t in ts && e in t.Contents()
  }

  lemma HoldsContents(ts: seq<Table>, e: Entry)
    ensures Holds(ts, e) <==> e in Flatten(ContentsOf(ts))
  {
    FlattenMember(ContentsOf(ts), e);
    if Holds(ts, e) {
      var t :| t in ts && e in t.Contents();
      var i :| 0 <= i < |ts| && ts[i] == t;
      assert e in ContentsOf(ts)[i];
    }
    if e in Flatten(ContentsOf(ts)) {
      var i :| 0 <= i < |ts| && e in ContentsOf(ts)[i];
      assert ts[i] in ts;
    }
  }

  /** Everything a merging compaction reads, and what of it survives. */
  ghost function Inputs(task: Task): seq<Entry> {
    Flatten(ContentsOf(task.inputs + task.targets))
  }

  ghost function Kept(task: Task): seq<Entry> {
    Surviving(Dedup(Merge(ContentsOf(task.inputs + task.targets))), task.target == BOTTOM)
  }

  lemma MergedIsNewest(cfg: Config, levels: Levels, task: Task)
    requires ValidLevels(cfg, levels) && Proper(levels, task)
    ensures IsNewestPerKey(Dedup(Merge(ContentsOf(task.inputs + task.targets))), Inputs(task))
  {
    var sources := ContentsOf(task.inputs + task.targets);
    forall i | 0 <= i < |sources|
      ensures Sorted(sources[i])
    {
      var t := (task.inputs + task.targets)[i];
      if i < |task.inputs| {
        assert t in task.inputs && t in levels[task.source];
        assert GoodTable(cfg, task.source, t);
      } else {
        assert t in task.targets && t in levels[task.target];
        assert GoodTable(cfg, task.target, t);
      }
      StrictlySortedIsSorted(t.Contents());
    }
    MergeKeepsNewest(sources);
  }

  lemma StrictlySortedIsSorted(s: seq<Entry>)
    requires StrictlySorted(s)
    ensures Sorted(s)
  {
    LtIsStrictTotalOrder();
    hide Lt;
    forall i, j | 0 <= i < j < |s|
      ensures !Before(s[j], s[i])
    {
      assert Before(s[i], s[j]);
    }
  }

  lemma KeptEntries(cfg: Config, levels: Levels, task: Task)
    requires ValidLevels(cfg, levels) && Proper(levels, task)
    ensures KeysIncreasing(Kept(task))
    ensures forall e :: e in Kept(task) ==> e in Inputs(task)
  {
    MergedIsNewest(cfg, levels, task);
    SurvivingMembers(Dedup(Merge(ContentsOf(task.inputs + task.targets))), task.target == BOTTOM);
  }

  lemma OutputTables(cfg: Config, levels: Levels, task: Task, id: nat, now: nat)
    requires ValidLevels(cfg, levels) && Proper(levels, task)
    ensures var ts := Outputs(cfg, task, id, now);
            && SortedDisjoint(ts)
            && (forall i :: 0 <= i < |ts| ==> ts[i].id == id + i && GoodTable(cfg, task.target, ts[i]))
            && (forall e :: Holds(ts, e) <==> e in Kept(task))
            && (forall t :: t in ts ==> MergedKey(task, t.minKey) && MergedKey(task, t.maxKey))
  {
    KeptEntries(cfg, levels, task);
    var kept := Kept(task);
    var fragments := Fragments([], 0, kept, cfg.fragmentTarget);
    FragmentsCut([], 0, kept, cfg.fragmentTarget);
    assert [] + kept == kept;
    FragmentTables(cfg, fragments, id, now);
    var ts := Outputs(cfg, task, id, now);
    assert ts == WriteFragments(cfg.sst, fragments, id, now);
    hide Outputs, Kept, Fragments, Inputs, WriteFragments, ValidLevels, GoodTable, SortedDisjoint;
    OutputContents(cfg, task, ts, fragments, kept);
  }

  lemma OutputContents(cfg: Config, task: Task, ts: seq<Table>, fragments: seq<seq<Entry>>, kept: seq<Entry>)
    requires |ts| == |fragments| && Flatten(fragments) == kept
    requires forall i :: 0 <= i < |ts| ==> ts[i].Contents() == fragments[i] && GoodTable(cfg, 1, ts[i])
    requires forall e :: e in kept ==> e in Inputs(task)
    ensures forall e :: Holds(ts, e) <==> e in kept
    ensures forall t :: t in ts ==> MergedKey(task, t.minKey) && MergedKey(task, t.maxKey)
  {
    assert ContentsOf(ts) == fragments;
    forall e
      ensures Holds(ts, e) <==> e in kept
    {
      HoldsContents(ts, e);
    }
    forall t | t in ts
      ensures MergedKey(task, t.minKey) && MergedKey(task, t.maxKey)
    {
      hide Inputs, MergedKey;
      var i :| 0 <= i < |ts| && ts[i] == t;
      assert GoodTable(cfg, 1, ts[i]);
      var a, b := t.Contents()[0], t.Contents()[|t.Contents()| - 1];
      assert Holds(ts, a) && Holds(ts, b);
      KeyIsMerged(task, a);
      KeyIsMerged(task, b);
    }
  }

  lemma KeyIsMerged(task: Task, e: Entry)
    requires e in Inputs(task)
    ensures MergedKey(task, e.key)
  {
    HoldsContents(task.inputs + task.targets, e);
  }

  // --- The effect of a task on the levels ---

  ghost function NewTables(cfg: Config, task: Task, id: nat, now: nat): seq<Table> {
    if IsTrivialMove(task) then Moved(task.inputs, now) else Outputs(cfg, task, id, now)
  }

  ghost predicate Replaced(levels: Levels, after: Levels, task: Task, outs: seq<Table>)
    requires task.target == task.source + 1 < LEVELS
  {
    && (forall l :: 0 <= l < LEVELS && l != task.source && l != task.target ==> after[l] == levels[l])
    && after[task.source] == MinusIds(levels[task.source], Ids(task.inputs))
    && (forall t :: t in after[task.target] <==> (t in levels[task.target] && t !in task.targets) || t in outs)
  }

  /** What both kinds of new tables have in common. */
  ghost predicate NewIn(cfg: Config, task: Task, outs: seq<Table>) {
    && SortedDisjoint(outs)
    && (forall t :: t in outs ==> GoodTable(cfg, task.target, t) && MergedKey(task, t.minKey) && MergedKey(task, t.maxKey))
    && (forall s, t :: s in outs && t in outs && s.id == t.id ==> s == t)
  }

  ghost predicate FreshIds(task: Task, outs: seq<Table>, id: nat)
    requires task.inputs != []
  {
    forall t :: t in outs ==> if IsTrivialMove(task) then t.id == task.inputs[0].id else t.id >= id
  }

  lemma MovedTableFits(cfg: Config, levels: Levels, task: Task, now: nat)
    requires ValidLevels(cfg, levels) && Proper(levels, task) && IsTrivialMove(task)
    ensures NewIn(cfg, task, Moved(task.inputs, now))
    ensures FreshIds(task, Moved(task.inputs, now), 0)
  {
    hide IdsIdentify;
    var x := task.inputs[0];
    assert GoodTable(cfg, task.source, x);
    var outs := Moved(task.inputs, now);
    assert outs == [x.(createdAt := now)];
    var es := x.Contents();
    assert es[0] in es && es[|es| - 1] in es;
    KeyInRange(cfg.sst, x, es[0]);
    assert x in task.inputs + task.targets;
    assert outs[0].Contents() == es;
  }

  lemma NewTablesFit(cfg: Config, levels: Levels, task: Task, id: nat, now: nat)
    requires ValidLevels(cfg, levels) && Proper(levels, task)
    ensures NewIn(cfg, task, NewTables(cfg, task, id, now))
    ensures FreshIds(task, NewTables(cfg, task, id, now), id)
  {
    if IsTrivialMove(task) {
      MovedTableFits(cfg, levels, task, now);
    } else {
      OutputTables(cfg, levels, task, id, now);
      WrittenTablesFit(cfg, task, Outputs(cfg, task, id, now), id);
    }
  }

  lemma WrittenTablesFit(cfg: Config, task: Task, ts: seq<Table>, id: nat)
    requires task.inputs != [] && !IsTrivialMove(task) && SortedDisjoint(ts)
    requires forall i :: 0 <= i < |ts| ==> ts[i].id == id + i && GoodTable(cfg, task.target, ts[i])
    requires forall t :: t in ts ==> MergedKey(task, t.minKey) && MergedKey(task, t.maxKey)
    ensures NewIn(cfg, task, ts) && FreshIds(task, ts, id)
  {
    hide MergedKey, GoodTable, SortedDisjoint;
    forall t | t in ts
      ensures GoodTable(cfg, task.target, t) && t.id >= id
    {
      var i :| 0 <= i < |ts| && ts[i] == t;
    }
    forall s, t | s in ts && t in ts && s.id == t.id
      ensures s == t
    {
      var i :| 0 <= i < |ts| && ts[i] == s;
      var j :| 0 <= j < |ts| && ts[j] == t;
      assert i == j;
    }
  }

  lemma {:induction false} OverlappingDistinct(ts: seq<Table>, start: Bytes, end: Bytes)
    requires DistinctIds(ts)
    ensures DistinctIds(FindOverlapping(ts, start, end))
  {
    if ts != [] {
      assert forall i :: 0 < i < |ts| ==> ts[i] == ts[1..][i - 1];
      OverlappingDistinct(ts[1..], start, end);
      var r := FindOverlapping(ts[1..], start, end);
      forall i | 0 <= i < |r|
        ensures r[i].id != ts[0].id
      {
        assert r[i] in ts[1..];
      }
    }
  }

  lemma InputsInSource(cfg: Config, levels: Levels, task: Task)
    requires ValidLevels(cfg, levels) && Proper(levels, task)
    ensures forall x :: x in task.inputs ==> x in levels[task.source]
    ensures DistinctIds(task.inputs) && DistinctIds(task.targets)
    ensures DistinctIds(levels[task.source]) && DistinctIds(levels[task.target])
  {
    LevelHasDistinctIds(cfg, levels, task.source);
    LevelHasDistinctIds(cfg, levels, task.target);
    OverlappingDistinct(levels[task.target], CombinedMin(task.inputs), CombinedMax(task.inputs));
  }

  /** The levels once the inputs and targets are gone. */
  lemma RemovalEffect(cfg: Config, levels: Levels, task: Task) returns (removed: Levels)
    requires ValidLevels(cfg, levels) && Proper(levels, task)
    ensures removed == levels[task.source := MinusIds(levels[task.source], Ids(task.inputs))][task.target := MinusIds(levels[task.target], Ids(task.targets))]
    ensures RemoveAll(levels, IdsAt(task.source, task.inputs) + IdsAt(task.target, task.targets)) == Ok(removed)
    ensures task.targets == [] ==> RemoveAll(levels, IdsAt(task.source, task.inputs)) == Ok(removed)
    ensures forall t :: t in removed[task.target] <==> t in levels[task.target] && t !in task.targets
    ensures SortedDisjoint(removed[task.target])
  {
    var a, b := task.source, task.target;
    InputsInSource(cfg, levels, task);
    RemoveAllIsMinus(levels, a, task.inputs);
    var next := levels[a := MinusIds(levels[a], Ids(task.inputs))];
    RemoveAllIsMinus(next, b, task.targets);
    removed := next[b := MinusIds(levels[b], Ids(task.targets))];
    RemoveAllAppend(levels, IdsAt(a, task.inputs), IdsAt(b, task.targets));
    if task.targets == [] {
      MinusNone(levels[b], Ids(task.targets));
      assert removed == next;
    }
    MinusMembers(levels[b], Ids(task.targets));
    MinusKeepsDisjoint(levels[b], Ids(task.targets));
    forall t | t in levels[b]
      ensures t.id in Ids(task.targets) <==> t in task.targets
    {
      if t.id in Ids(task.targets) {
        var s :| s in task.targets && s.id == t.id;
        assert s in levels[b];
      }
    }
  }

  lemma AdditionEffect(cfg: Config, levels: Levels, task: Task, removed: Levels, outs: seq<Table>) returns (after: Levels)
    requires ValidLevels(cfg, levels) && Proper(levels, task) && NewIn(cfg, task, outs)
    requires task.target == task.source + 1 < LEVELS
    requires removed == levels[task.source := MinusIds(levels[task.source], Ids(task.inputs))][task.target := removed[task.target]]
    requires forall t :: t in removed[task.target] <==> t in levels[task.target] && t !in task.targets
    requires SortedDisjoint(removed[task.target])
    ensures after == AddAll(removed, At(task.target, outs))
    ensures Replaced(levels, after, task, outs)
    ensures SortedDisjoint(after[task.target])
  {
    hide ValidLevels, Proper, MergedKey, GoodTable;
    forall o | o in outs
      ensures DisjointFrom(o, removed[task.target])
    {
      forall t | t in removed[task.target]
        ensures Lt(o.maxKey, t.minKey) || Lt(t.maxKey, o.minKey)
      {
        UntouchedTableIsApart(cfg, levels, task, t, o.minKey, o.maxKey);
      }
    }
    var ts := AddAllDisjoint(removed, task.target, outs);
    after := removed[task.target := ts];
  }

  lemma ReplacedKeepsValid(cfg: Config, levels: Levels, task: Task, outs: seq<Table>, after: Levels, id: nat)
    requires ValidLevels(cfg, levels) && Proper(levels, task) && IdsBelow(levels, id)
    requires NewIn(cfg, task, outs) && FreshIds(task, outs, id)
    requires Replaced(levels, after, task, outs) && SortedDisjoint(after[task.target])
    ensures ValidLevels(cfg, after)
  {
    InputsInSource(cfg, levels, task);
    MinusKeepsDistinct(levels[task.source], Ids(task.inputs));
    if task.source > 0 {
      MinusKeepsDisjoint(levels[task.source], Ids(task.inputs));
    }
    forall l, t | 0 <= l < LEVELS && t in after[l]
      ensures GoodTable(cfg, l, t)
    {
      OldOrNew(levels, task, outs, after, l, t);
    }
    IdsStillIdentify(cfg, levels, task, outs, after, id);
  }

  lemma IdsStillIdentify(cfg: Config, levels: Levels, task: Task, outs: seq<Table>, after: Levels, id: nat)
    requires ValidLevels(cfg, levels) && Proper(levels, task) && IdsBelow(levels, id)
    requires NewIn(cfg, task, outs) && FreshIds(task, outs, id)
    requires Replaced(levels, after, task, outs)
    ensures IdsIdentify(after)
  {
    forall l, m, s, t | 0 <= l < LEVELS && 0 <= m < LEVELS && s in after[l] && t in after[m] && s.id == t.id
      ensures l == m && s == t
    {
      OldOrNew(levels, task, outs, after, l, s);
      OldOrNew(levels, task, outs, after, m, t);
      NewIdsDiffer(cfg, levels, task, outs, after, id, l, s, t);
      NewIdsDiffer(cfg, levels, task, outs, after, id, m, t, s);
    }
  }

  lemma OldOrNew(levels: Levels, task: Task, outs: seq<Table>, after: Levels, l: nat, t: Table)
    requires task.target == task.source + 1 < LEVELS && Replaced(levels, after, task, outs)
    requires l < LEVELS && t in after[l]
    ensures t in levels[l] || (l == task.target && t in outs)
  {
    MinusMembers(levels[task.source], Ids(task.inputs));
  }

  lemma NewIdsDiffer(cfg: Config, levels: Levels, task: Task, outs: seq<Table>, after: Levels, id: nat, l: nat, s: Table, t: Table)
    requires ValidLevels(cfg, levels) && Proper(levels, task) && IdsBelow(levels, id)
    requires FreshIds(task, outs, id) && Replaced(levels, after, task, outs)
    requires l < LEVELS && s in after[l]
    ensures s in levels[l] && t in outs ==> s.id != t.id
  {
    if s in levels[l] && t in outs && IsTrivialMove(task) {
      MinusMembers(levels[task.source], Ids(task.inputs));
      var x := task.inputs[0];
      assert x in levels[task.source] && x.id in Ids(task.inputs);
      assert s != x || l != task.source;
    }
  }

  lemma UpdateIsValid(cfg: Config, task: Task, m: Manifest, id: nat, now: nat)
    requires ValidLevels(cfg, m.levels) && Proper(m.levels, task) && IdsBelow(m.levels, id)
    ensures ValidUpdate(CompactionUpdate(cfg, task, m, id, now), m)
  {
    var u, outs := CompactionUpdate(cfg, task, m, id, now), NewTables(cfg, task, id, now);
    UpdateParts(cfg, task, m, id, now);
    NewTablesFit(cfg, m.levels, task, id, now);
    AddedIdsAreNew(cfg, m.levels, task, outs, id);
    InputsInSource(cfg, m.levels, task);
    hide CompactionUpdate, NewTables, ValidLevels, NewIn, FreshIds, DistinctIds;
    RemovalsPresent(m.levels, task, u.remove);
    forall i | 0 <= i < |u.add|
      ensures u.add[i].0 < LEVELS && PositionOf(m.levels[u.add[i].0], u.add[i].1.id).None?
    {
      assert u.add[i] == (task.target, outs[i]) && outs[i] in outs;
    }
  }

  lemma UpdateParts(cfg: Config, task: Task, m: Manifest, id: nat, now: nat)
    ensures var u := CompactionUpdate(cfg, task, m, id, now);
            && u.add == At(task.target, NewTables(cfg, task, id, now))
            && u.remove == IdsAt(task.source, task.inputs) + IdsAt(task.target, task.targets)
            && u.newLastFlushed == None
  {
    hide Outputs;
  }

  lemma RemovalsPresent(levels: Levels, task: Task, remove: seq<(nat, nat)>)
    requires Proper(levels, task) && (forall x :: x in task.inputs ==> x in levels[task.source])
    requires remove == IdsAt(task.source, task.inputs) + IdsAt(task.target, task.targets)
    ensures forall i :: 0 <= i < |remove| ==> remove[i].0 < LEVELS && PositionOf(levels[remove[i].0], remove[i].1).Some?
  {
    forall i | 0 <= i < |remove|
      ensures remove[i].0 < LEVELS && PositionOf(levels[remove[i].0], remove[i].1).Some?
    {
      if i < |task.inputs| {
        assert task.inputs[i] in levels[task.source];
      } else {
        assert task.targets[i - |task.inputs|] in levels[task.target];
      }
    }
  }

  lemma AddedIdsAreNew(cfg: Config, levels: Levels, task: Task, outs: seq<Table>, id: nat)
    requires ValidLevels(cfg, levels) && Proper(levels, task) && IdsBelow(levels, id) && FreshIds(task, outs, id)
    ensures forall o :: o in outs ==> PositionOf(levels[task.target], o.id).None?
  {
    forall o | o in outs
      ensures PositionOf(levels[task.target], o.id).None?
    {
      assert task.inputs[0] in levels[task.source];
      forall t | t in levels[task.target]
        ensures t.id != o.id
      {
      }
    }
  }

  /** A task whose tables are all still in place always runs, replaces exactly them, and keeps the
      levels valid. */
  lemma ExecuteEffect(cfg: Config, task: Task, m: Manifest, id: nat, now: nat)
    requires ValidLevels(cfg, m.levels) && Proper(m.levels, task) && IdsBelow(m.levels, id)
    ensures Execute(cfg, task, m, id, now).Ok?
    ensures var after := Execute(cfg, task, m, id, now).value;
            && Replaced(m.levels, after.levels, task, NewTables(cfg, task, id, now))
            && ValidLevels(cfg, after.levels)
            && after.lastFlushed == m.lastFlushed
  {
    var outs := NewTables(cfg, task, id, now);
    UpdateIsValid(cfg, task, m, id, now);
    NewTablesFit(cfg, m.levels, task, id, now);
    var removed := RemovalEffect(cfg, m.levels, task);
    var after := AdditionEffect(cfg, m.levels, task, removed, outs);
    ReplacedKeepsValid(cfg, m.levels, task, outs, after, id);
    UpdateParts(cfg, task, m, id, now);
    hide CompactionUpdate, NewTables, ValidLevels, NewIn, FreshIds, Replaced, ValidUpdate, Proper;
  }

  /** What a merging compaction writes: of every key among its inputs and the tables they meet, the newest
      version and nothing else, unless that is a deletion at the bottom level; in tables that are cut at
      the fragment target and numbered from the given id. */
  lemma {:induction false} MergeWritesNewest(cfg: Config, levels: Levels, task: Task, id: nat, now: nat)
    requires ValidLevels(cfg, levels) && Proper(levels, task)
    ensures var ts := Outputs(cfg, task, id, now); var bottom := task.target == BOTTOM;
            && (forall e :: Holds(ts, e) ==> Holds(task.inputs + task.targets, e) && Dominates(e, Inputs(task)) && !(bottom && e.IsTombstone()))
            && (forall f :: Holds(task.inputs + task.targets, f) ==>
                  exists e :: e in Inputs(task) && e.key == f.key && Dominates(e, Inputs(task)) && (Holds(ts, e) || (bottom && e.IsTombstone())))
            && CutAtSize(ContentsOf(ts), cfg.fragmentTarget)
            && forall i :: 0 <= i < |ts| ==> ts[i].id == id + i && ts[i].createdAt == now
  {
    hide ValidLevels, Proper, Outputs, Kept, Inputs, GoodTable, CutAtSize, Dominates, Holds, MergedKey, SortedDisjoint;
    OutputTables(cfg, levels, task, id, now);
    KeptMembers(cfg, levels, task);
    OutputsCut(cfg, levels, task, id, now);
    forall e
      ensures Holds(task.inputs + task.targets, e) <==> e in Inputs(task)
    {
      InputsHold(task, e);
    }
  }

  lemma InputsHold(task: Task, e: Entry)
    ensures Holds(task.inputs + task.targets, e) <==> e in Inputs(task)
  {
    HoldsContents(task.inputs + task.targets, e);
  }

  lemma OutputsCut(cfg: Config, levels: Levels, task: Task, id: nat, now: nat)
    requires ValidLevels(cfg, levels) && Proper(levels, task)
    ensures var ts := Outputs(cfg, task, id, now);
            CutAtSize(ContentsOf(ts), cfg.fragmentTarget) && forall i :: 0 <= i < |ts| ==> ts[i].createdAt == now
  {
    hide ValidLevels, Proper, Kept, CutAtSize, Fragments, WriteTable, Merge, Dedup, Surviving, KeysIncreasing, GoodTable, SortedDisjoint;
    KeptEntries(cfg, levels, task);
    var kept := Kept(task);
    var fragments := Fragments([], 0, kept, cfg.fragmentTarget);
    FragmentsCut([], 0, kept, cfg.fragmentTarget);
    NothingMeasured();
    FragmentsReachTarget([], 0, kept, cfg.fragmentTarget);
    assert [] + kept == kept;
    OutputsAreFragments(cfg, task, id, now);
    var ts := Outputs(cfg, task, id, now);
    hide Outputs;
    FragmentTables(cfg, fragments, id, now);
    WrittenNow(cfg.sst, fragments, id, now);
    assert ContentsOf(ts) == fragments;
  }

  lemma OutputsAreFragments(cfg: Config, task: Task, id: nat, now: nat)
    ensures var fragments := Fragments([], 0, Kept(task), cfg.fragmentTarget);
            (forall i :: 0 <= i < |fragments| ==> fragments[i] != []) && Outputs(cfg, task, id, now) == WriteFragments(cfg.sst, fragments, id, now)
  {
    hide Fragments, Surviving, Merge, Dedup, WriteTable;
    FragmentsCut([], 0, Kept(task), cfg.fragmentTarget);
  }

  lemma WrittenNow(sst: SstConfig, fragments: seq<seq<Entry>>, id: nat, now: nat)
    requires forall i :: 0 <= i < |fragments| ==> fragments[i] != []
    ensures forall i :: 0 <= i < |fragments| ==> WriteFragments(sst, fragments, id, now)[i].createdAt == now
  {
  }

  lemma {:induction false} KeptMembers(cfg: Config, levels: Levels, task: Task)
    requires ValidLevels(cfg, levels) && Proper(levels, task)
    ensures forall e :: e in Kept(task) ==> e in Inputs(task) && Dominates(e, Inputs(task)) && !(task.target == BOTTOM && e.IsTombstone())
    ensures forall f :: f in Inputs(task) ==>
              exists e :: e in Inputs(task) && e.key == f.key && Dominates(e, Inputs(task)) && (e in Kept(task) || (task.target == BOTTOM && e.IsTombstone()))
  {
    hide ValidLevels, Proper, Merge, Dedup, Surviving, Inputs, Dominates, KeysIncreasing;
    var merged := Dedup(Merge(ContentsOf(task.inputs + task.targets)));
    MergedIsNewest(cfg, levels, task);
    SurvivingMembers(merged, task.target == BOTTOM);
    forall f | f in Inputs(task)
      ensures exists e :: e in Inputs(task) && e.key == f.key && Dominates(e, Inputs(task)) && (e in Kept(task) || (task.target == BOTTOM && e.IsTombstone()))
    {
      assert HasKey(merged, f.key);
      var e :| e in merged && e.key == f.key;
    }
  }

  /** A table that meets nothing at the next level moves there as it is. */
  lemma {:induction false} TrivialMoveKeepsTable(cfg: Config, task: Task, m: Manifest, id: nat, now: nat)
    requires ValidLevels(cfg, m.levels) && Proper(m.levels, task) && IdsBelow(m.levels, id)
    requires task.source > 0 && task.targets == []
    ensures Execute(cfg, task, m, id, now).Ok? && IdsUsed(cfg, task) == 0
    ensures var after, x := Execute(cfg, task, m, id, now).value.levels, task.inputs[0];
            && x.(createdAt := now) in after[task.target]
            && forall t :: t in after[task.source] <==> t in m.levels[task.source] && t.id != x.id
  {
    hide ValidLevels, IdsBelow, Execute;
    ExecuteEffect(cfg, task, m, id, now);
    MinusMembers(m.levels[task.source], Ids(task.inputs));
    assert Ids(task.inputs) == {task.inputs[0].id};
    assert Moved(task.inputs, now) == [task.inputs[0].(createdAt := now)];
  }

  lemma OutputsFromId(cfg: Config, task: Task, id: nat, now: nat)
    ensures !IsTrivialMove(task) ==> |Outputs(cfg, task, id, now)| == IdsUsed(cfg, task)
  {
    hide Merge, Dedup, Fragments, Surviving;
  }

  lemma NewIdsBelow(cfg: Config, levels: Levels, task: Task, id: nat, now: nat)
    requires ValidLevels(cfg, levels) && Proper(levels, task) && IdsBelow(levels, id)
    ensures forall t :: t in NewTables(cfg, task, id, now) ==> t.id < id + IdsUsed(cfg, task)
  {
    hide ValidLevels, Outputs, IdsUsed, GoodTable, SortedDisjoint, MergedKey, Kept;
    if IsTrivialMove(task) {
      assert task.inputs[0] in levels[task.source];
      assert Moved(task.inputs, now) == [task.inputs[0].(createdAt := now)];
      NoIdsUsed(cfg, task);
    } else {
      hide Proper;
      OutputTables(cfg, levels, task, id, now);
      OutputsFromId(cfg, task, id, now);
      var outs := Outputs(cfg, task, id, now);
      forall t | t in outs
        ensures t.id < id + IdsUsed(cfg, task)
      {
        var i :| 0 <= i < |outs| && outs[i] == t;
      }
    }
  }

  lemma NoIdsUsed(cfg: Config, task: Task)
    requires IsTrivialMove(task)
    ensures IdsUsed(cfg, task) == 0
  {
  }

  lemma IdsStayBelow(cfg: Config, levels: Levels, task: Task, after: Levels, id: nat, now: nat)
    requires ValidLevels(cfg, levels) && Proper(levels, task) && IdsBelow(levels, id)
    requires Replaced(levels, after, task, NewTables(cfg, task, id, now))
    ensures IdsBelow(after, id + IdsUsed(cfg, task))
  {
    hide ValidLevels, IdsUsed, NewTables, Proper, Replaced, IdsBelow;
    NewIdsBelow(cfg, levels, task, id, now);
    BelowAfter(levels, task, NewTables(cfg, task, id, now), after, id, id + IdsUsed(cfg, task));
  }

  lemma BelowAfter(levels: Levels, task: Task, outs: seq<Table>, after: Levels, id: nat, bound: nat)
    requires Proper(levels, task) && Replaced(levels, after, task, outs)
    requires IdsBelow(levels, id) && id <= bound && forall t :: t in outs ==> t.id < bound
    ensures IdsBelow(after, bound)
  {
    hide Proper, Replaced;
    ProperShape(levels, task);
    forall l, t | 0 <= l < LEVELS && t in after[l]
      ensures t.id < bound
    {
      OldOrNew(levels, task, outs, after, l, t);
    }
  }

  // --- Runs of the tasks of one `check_triggers` call ---

  /** The task may still find its input by id; if it does, it is the very table it was planned for. */
  ghost predicate Pending(levels: Levels, task: Task) {
    Proper(levels, task)
    || (&& task.target == task.source + 1 < LEVELS
        && task.source > 0
        && task.kind == LevelToLevel
        && |task.inputs| == 1
        && task.targets == FindOverlapping(levels[task.target], task.inputs[0].minKey, task.inputs[0].maxKey)
        && forall t :: t in levels[task.source] && t.id == task.inputs[0].id ==> t == task.inputs[0])
  }

  ghost predicate Chain(levels: Levels, tasks: seq<Task>) {
    && (tasks != [] ==> Pending(levels, tasks[0]))
    && (forall i :: 1 <= i < |tasks| ==> Proper(levels, tasks[i]))
    && (forall i, j :: 0 <= i < j < |tasks| ==> tasks[i].target <= tasks[j].source)
  }

  /** Everything the scheduler returns is fit to run, in order, on the manifest it looked at. */
  lemma ScheduledTasksFit(cfg: Config, levels: Levels)
    ensures forall i :: 0 <= i < |CheckTriggers(cfg, levels)| ==> Proper(levels, CheckTriggers(cfg, levels)[i])
    ensures Chain(levels, CheckTriggers(cfg, levels))
  {
    var a, b, c := CheckL0Trigger(cfg, levels), CheckLevelTrigger(cfg, levels, 1), CheckLevelTrigger(cfg, levels, 2);
    L0TaskFits(cfg, levels);
    LevelTaskFits(cfg, levels, 1);
    LevelTaskFits(cfg, levels, 2);
    hide Proper, CheckL0Trigger, CheckLevelTrigger;
    var tasks := CheckTriggers(cfg, levels);
    assert tasks == Listed(a) + Listed(b) + Listed(c);
  }

  lemma L0TaskFits(cfg: Config, levels: Levels)
    ensures var t := CheckL0Trigger(cfg, levels); t.Some? ==> Proper(levels, t.value) && t.value.source == 0 && t.value.target == 1
  {
  }

  lemma LevelTaskFits(cfg: Config, levels: Levels, level: nat)
    requires level == 1 || level == 2
    ensures var t := CheckLevelTrigger(cfg, levels, level); t.Some? ==> Proper(levels, t.value) && t.value.source == level && t.value.target == level + 1
  {
  }

  /** A pending task either runs as planned or is rejected without any effect. */
  lemma PendingRunsOrFails(cfg: Config, task: Task, m: Manifest, id: nat, now: nat)
    requires ValidLevels(cfg, m.levels) && Pending(m.levels, task) && IdsBelow(m.levels, id)
    ensures Execute(cfg, task, m, id, now).Ok? <==> Proper(m.levels, task)
  {
    if Proper(m.levels, task) {
      ExecuteEffect(cfg, task, m, id, now);
    } else {
      var u := CompactionUpdate(cfg, task, m, id, now);
      assert u.remove[0] == (task.source, task.inputs[0].id);
      assert task.inputs[0] !in m.levels[task.source];
    }
  }

  lemma ProperShape(levels: Levels, task: Task)
    requires Proper(levels, task)
    ensures task.target == task.source + 1 < LEVELS
  {
  }

  lemma ChainSurvives(cfg: Config, levels: Levels, tasks: seq<Task>, after: Levels, id: nat, now: nat)
    requires ValidLevels(cfg, levels) && tasks != [] && Proper(levels, tasks[0]) && Chain(levels, tasks) && IdsBelow(levels, id)
    requires Replaced(levels, after, tasks[0], NewTables(cfg, tasks[0], id, now))
    ensures Chain(after, tasks[1..])
  {
    hide Proper, Pending, ValidLevels, Replaced, IdsBelow, NewTables;
    ProperShape(levels, tasks[0]);
    var rest := tasks[1..];
    forall i | 0 <= i < |rest|
      ensures rest[i] == tasks[i + 1] && rest[i].source < rest[i].target && tasks[0].target <= rest[i].source
      ensures rest[i].source > tasks[0].target ==> Proper(after, rest[i])
      ensures Pending(after, rest[i])
    {
      LaterTaskSurvives(cfg, levels, tasks[0], tasks[i + 1], after, id, now);
    }
    forall i | 1 <= i < |rest|
      ensures Proper(after, rest[i])
    {
      assert rest[0].source < rest[0].target && tasks[1].target <= tasks[i + 1].source;
    }
  }

  /** Running a task leaves later tasks of the same plan intact, or pending when it wrote to their
      source level. */
  lemma LaterTaskSurvives(cfg: Config, levels: Levels, task: Task, later: Task, after: Levels, id: nat, now: nat)
    requires ValidLevels(cfg, levels) && Proper(levels, task) && Proper(levels, later) && IdsBelow(levels, id)
    requires task.target <= later.source && task.target == task.source + 1 < LEVELS
    requires Replaced(levels, after, task, NewTables(cfg, task, id, now))
    ensures later.source > task.target ==> Proper(after, later)
    ensures Pending(after, later)
    ensures later.source < later.target
  {
    var outs := NewTables(cfg, task, id, now);
    NewTablesFit(cfg, levels, task, id, now);
    hide NewTables, NewIn, IdsIdentify, GoodTable;
    assert after[later.target] == levels[later.target];
    if later.source == task.target {
      var x := later.inputs[0];
      forall t | t in after[later.source] && t.id == x.id
        ensures t == x
      {
        OldOrNew(levels, task, outs, after, later.source, t);
        InputsKeepTheirIds(cfg, levels, task, outs, id, later.source, x, t);
      }
    } else {
      assert after[later.source] == levels[later.source];
    }
  }

  lemma InputsKeepTheirIds(cfg: Config, levels: Levels, task: Task, outs: seq<Table>, id: nat, l: nat, x: Table, t: Table)
    requires ValidLevels(cfg, levels) && Proper(levels, task) && IdsBelow(levels, id) && FreshIds(task, outs, id)
    requires l == task.target && x in levels[l] && t.id == x.id
    requires t in levels[l] || t in outs
    ensures t == x
  {
    assert task.inputs[0] in levels[task.source];
    assert x.id < id;
    assert IsTrivialMove(task) ==> x.id != task.inputs[0].id;
  }
}
