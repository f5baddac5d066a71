/** Manifests and updates to them (crates/flushdb-engine/src/manifest/types.rs). */
module Manifests {
  import opened Wrappers
  import opened ByteStrings
  import opened Tables

  const LEVELS: nat := 4
  const BOTTOM: nat := 3

  type Levels = s: seq<seq<Table>> | |s| == LEVELS witness [[], [], [], []]

  datatype Manifest = Manifest(
    id: nat,
    previous: nat,
    writerEpoch: nat,
    compactorEpoch: nat,
    lastFlushed: nat,
    levels: Levels,
    createdAt: nat,
    isSnapshot: bool)

  datatype Trigger = ByFlush | ByCompaction | ByGc

  datatype Update = Update(
    trigger: Trigger,
    add: seq<(nat, Table)>,
    remove: seq<(nat, nat)>,
    newLastFlushed: Option<nat>,
    writerEpoch: nat,
    compactorEpoch: nat)

  function EmptyManifest(now: nat): Manifest {
    Manifest(0, 0, 0, 0, 0, [[], [], [], []], now, false)
  }

  // --- Removing ---

  function PositionOf(ts: seq<Table>, id: nat): (p: Option<nat>)
    ensures p.Some? ==> p.value < |ts| && ts[p.value].id == id && forall i :: 0 <= i < p.value ==> ts[i].id != id
    ensures p.None? ==> forall i :: 0 <= i < |ts| ==> ts[i].id != id
  {
    if ts == [] then None
    else if ts[0].id == id then Some(0)
    else
      assert forall i :: 0 < i < |ts| ==> ts[i] == ts[1..][i - 1];
      var p := PositionOf(ts[1..], id);
      if p.None? then None else Some(p.value + 1)
  }

  function RemoveAt(ts: seq<Table>, p: nat): seq<Table>
    requires p < |ts|
  {
    ts[..p] + ts[p + 1..]
  }

  function RemoveOne(levels: Levels, level: nat, id: nat): Result<Levels> {
    if level >= LEVELS then Err(InvalidArgument)
    else
      var p := PositionOf(levels[level], id);
      if p.None? then Err(InvalidArgument) else Ok(levels[level := RemoveAt(levels[level], p.value)])
  }

  function RemoveAll(levels: Levels, remove: seq<(nat, nat)>): Result<Levels>
    decreases |remove|
  {
    if remove == [] then Ok(levels)
    else
      var next :- RemoveOne(levels, remove[0].0, remove[0].1);
      RemoveAll(next, remove[1..])
  }

  // --- Adding ---

  /** Insertion after every table whose minimum is not greater, as a stable sort places it. */
  function InsertByMin(ts: seq<Table>, t: Table): seq<Table> {
    if ts == [] || Le(ts[|ts| - 1].minKey, t.minKey) then ts + [t]
    else InsertByMin(ts[..|ts| - 1], t) + [ts[|ts| - 1]]
  }

  /** Stable sort by minimum key. */
  function SortByMin(ts: seq<Table>): seq<Table> {
    if ts == [] then [] else InsertByMin(SortByMin(ts[..|ts| - 1]), ts[|ts| - 1])
  }

  function AddOne(levels: Levels, level: nat, t: Table): Levels {
    if level >= LEVELS then levels
    else if level == 0 then levels[0 := levels[0] + [t]]
    else levels[level := SortByMin(levels[level] + [t])]
  }

  function AddAll(levels: Levels, add: seq<(nat, Table)>): Levels
    decreases |add|
  {
    if add == [] then levels else AddAll(AddOne(levels, add[0].0, add[0].1), add[1..])
  }

  /** `ManifestUpdate::apply` */
  function Apply(u: Update, m: Manifest, now: nat): (r: Result<Manifest>)
    ensures r.Ok? ==> r.value.id == m.id + 1 && r.value.previous == m.id
    ensures r.Ok? ==> r.value.lastFlushed >= m.lastFlushed
  {
    var removed :- RemoveAll(m.levels, u.remove);
    var levels := AddAll(removed, u.add);
    if u.newLastFlushed.Some? && u.newLastFlushed.value < m.lastFlushed then Err(InvalidArgument)
    else
      var flushed := if u.newLastFlushed.Some? then u.newLastFlushed.value else m.lastFlushed;
      Ok(m.(id := m.id + 1, previous := m.id, createdAt := now, levels := levels, lastFlushed := flushed,
            writerEpoch := u.writerEpoch, compactorEpoch := u.compactorEpoch))
  }

  /** The loops of `apply`. */
  method ApplyLoop(u: Update, m: Manifest, now: nat) returns (r: Result<Manifest>)
    ensures r == Apply(u, m, now)
  {
    var levels := m.levels;
    var i := 0;
    assert u.remove[0..] == u.remove;
    while i < |u.remove|
      invariant 0 <= i <= |u.remove|
      invariant RemoveAll(levels, u.remove[i..]) == RemoveAll(m.levels, u.remove)
    {
      var (level, id) := u.remove[i];
      var next :- RemoveOne(levels, level, id);
      assert u.remove[i..][1..] == u.remove[i + 1..];
      levels, i := next, i + 1;
    }
    assert u.remove[i..] == [];
    ghost var removed := levels;
    i := 0;
    assert u.add[0..] == u.add;
    while i < |u.add|
      invariant 0 <= i <= |u.add|
      invariant AddAll(levels, u.add[i..]) == AddAll(removed, u.add)
    {
      var (level, t) := u.add[i];
      assert u.add[i..][1..] == u.add[i + 1..];
      levels, i := AddOne(levels, level, t), i + 1;
    }
    assert u.add[i..] == [];
    var flushed := m.lastFlushed;
    if u.newLastFlushed.Some? {
      if u.newLastFlushed.value < m.lastFlushed {
        return Err(InvalidArgument);
      }
      flushed := u.newLastFlushed.value;
    }
    return Ok(m.(id := m.id + 1, previous := m.id, createdAt := now, levels := levels, lastFlushed := flushed,
                 writerEpoch := u.writerEpoch, compactorEpoch := u.compactorEpoch));
  }

  /** `validate_update`: removals present, additions absent, sequence not going back. */
  predicate ValidUpdate(u: Update, m: Manifest) {
    && (forall i :: 0 <= i < |u.remove| ==> u.remove[i].0 < LEVELS && PositionOf(m.levels[u.remove[i].0], u.remove[i].1).Some?)
    && (forall i :: 0 <= i < |u.add| ==> u.add[i].0 < LEVELS && PositionOf(m.levels[u.add[i].0], u.add[i].1.id).None?)
    && (u.newLastFlushed.Some? ==> u.newLastFlushed.value >= m.lastFlushed)
  }

  // --- Lookup ---

  /** `find_overlapping` */
  function FindOverlapping(ts: seq<Table>, start: Bytes, end: Bytes): (r: seq<Table>)
    ensures forall t :: t in r <==> t in ts && t.OverlapsRange(start, end)
  {
    if ts == [] then []
    else if ts[0].OverlapsRange(start, end) then [ts[0]] + FindOverlapping(ts[1..], start, end)
    else FindOverlapping(ts[1..], start, end)
  }

  /** Partition point of `max_key < k`, then one containment test: the L1+ lookup of
      `find_sstable_for_key` and of `find_candidates_for_key`. */
  function FindTable(ts: seq<Table>, k: Bytes): Option<Table> {
    if ts == [] then None
    else if Lt(ts[0].maxKey, k) then FindTable(ts[1..], k)
    else if ts[0].ContainsKey(k) then Some(ts[0]) else None
  }

  /** Sorted by minimum key with pairwise disjoint ranges. */
  ghost predicate SortedDisjoint(ts: seq<Table>) {
    && (forall i :: 0 <= i < |ts| ==> Le(ts[i].minKey, ts[i].maxKey))
    && (forall i, j :: 0 <= i < j < |ts| ==> Lt(ts[i].maxKey, ts[j].minKey))
  }

  /** On a disjoint level the search returns the one table whose range holds the key. */
  lemma {:induction false} FindTableUnique(ts: seq<Table>, k: Bytes)
    requires SortedDisjoint(ts)
    ensures FindTable(ts, k).Some? ==> FindTable(ts, k).value in ts && FindTable(ts, k).value.ContainsKey(k)
    ensures forall t :: t in ts && t.ContainsKey(k) ==> FindTable(ts, k) == Some(t)
  {
    if ts != [] {
      LtIsStrictTotalOrder();
      hide Lt;
      assert forall i :: 0 < i < |ts| ==> ts[i] == ts[1..][i - 1];
      FindTableUnique(ts[1..], k);
      forall t | t in ts && t.ContainsKey(k)
        ensures FindTable(ts, k) == Some(t)
      {
        var i :| 0 <= i < |ts| && ts[i] == t;
        if i > 0 {
          assert Lt(ts[0].maxKey, ts[i].minKey);
        }
      }
    }
  }

  // --- What adding and removing do to a level ---

  ghost predicate SortedByMin(ts: seq<Table>) {
    forall i, j :: 0 <= i < j < |ts| ==> Le(ts[i].minKey, ts[j].minKey)
  }

  lemma {:induction false} InsertByMinKeepsOrder(ts: seq<Table>, t: Table)
    ensures multiset(InsertByMin(ts, t)) == multiset(ts) + multiset{t}
    ensures SortedByMin(ts) ==> SortedByMin(InsertByMin(ts, t))
  {
    if ts != [] && !Le(ts[|ts| - 1].minKey, t.minKey) {
      var n := |ts| - 1;
      assert ts == ts[..n] + [ts[n]];
      InsertByMinKeepsOrder(ts[..n], t);
      LtIsStrictTotalOrder();
      forall i | 0 <= i < |InsertByMin(ts[..n], t)|
        ensures SortedByMin(ts) ==> Le(InsertByMin(ts[..n], t)[i].minKey, ts[n].minKey)
      {
        var x := InsertByMin(ts[..n], t)[i];
        assert x in multiset(InsertByMin(ts[..n], t));
        assert x in ts[..n] || x == t;
      }
    } else if ts != [] {
      LtIsStrictTotalOrder();
      hide Lt;
      var n := |ts| - 1;
      forall i | 0 <= i < |ts|
        ensures SortedByMin(ts) ==> Le(ts[i].minKey, t.minKey)
      {
        assert i == n || (SortedByMin(ts) ==> Le(ts[i].minKey, ts[n].minKey));
      }
    }
  }

  /** The sort is a sorted permutation. */
  lemma {:induction false} SortByMinCorrect(ts: seq<Table>)
    ensures multiset(SortByMin(ts)) == multiset(ts)
    ensures SortedByMin(SortByMin(ts))
  {
    if ts != [] {
      var n := |ts| - 1;
      assert ts == ts[..n] + [ts[n]];
      SortByMinCorrect(ts[..n]);
      InsertByMinKeepsOrder(SortByMin(ts[..n]), ts[n]);
    }
  }

  ghost predicate DisjointFrom(t: Table, ts: seq<Table>) {
    forall s :: s in ts ==> Lt(t.maxKey, s.minKey) || Lt(s.maxKey, t.minKey)
  }

  /** Adding a table whose range meets no other keeps a level sorted and disjoint. */
  lemma {:induction false} AddKeepsDisjoint(ts: seq<Table>, t: Table)
    requires SortedDisjoint(ts) && Le(t.minKey, t.maxKey) && DisjointFrom(t, ts)
    ensures SortedDisjoint(SortByMin(ts + [t]))
    ensures forall s :: s in SortByMin(ts + [t]) <==> s in ts || s == t
  {
    var all := ts + [t];
    var sorted := SortByMin(all);
    SortByMinCorrect(all);
    forall s
      ensures s in sorted <==> s in ts || s == t
    {
      assert s in sorted <==> s in multiset(sorted);
      assert s in all <==> s in multiset(all);
    }
    SortedOfDisjoint(all, sorted);
  }

  ghost predicate Apart(s: Table, t: Table) {
    Lt(s.maxKey, t.minKey) || Lt(t.maxKey, s.minKey)
  }

  /** Sorting pairwise disjoint tables by minimum key puts each wholly before the next. */
  lemma {:induction false} SortedOfDisjoint(all: seq<Table>, sorted: seq<Table>)
    requires multiset(all) == multiset(sorted) && SortedByMin(sorted)
    requires forall i :: 0 <= i < |all| ==> Le(all[i].minKey, all[i].maxKey)
    requires forall i, j :: 0 <= i < j < |all| ==> Apart(all[i], all[j])
    ensures SortedDisjoint(sorted)
  {
    LtIsStrictTotalOrder();
    hide Lt;
    forall i | 0 <= i < |sorted|
      ensures Le(sorted[i].minKey, sorted[i].maxKey)
    {
      assert sorted[i] in multiset(sorted);
      assert sorted[i] in all;
    }
    forall i, j | 0 <= i < j < |sorted|
      ensures Lt(sorted[i].maxKey, sorted[j].minKey)
    {
      var s, t := sorted[i], sorted[j];
      assert s in multiset(sorted) && t in multiset(sorted);
      assert Le(s.minKey, t.minKey) && Le(t.minKey, t.maxKey);
      assert Apart(s, t) by {
        if s == t {
          assert multiset(sorted)[s] >= 2 by {
            TwoOccurrences(sorted, i, j);
          }
          var p, q := TwoPositions(all, s);
        } else {
          var p :| 0 <= p < |all| && all[p] == s;
          var q :| 0 <= q < |all| && all[q] == t;
          assert p < q ==> Apart(all[p], all[q]);
          assert q < p ==> Apart(all[q], all[p]);
        }
      }
    }
  }

  lemma TwoOccurrences(s: seq<Table>, i: nat, j: nat)
    requires i < j < |s| && s[i] == s[j]
    ensures multiset(s)[s[i]] >= 2
  {
    assert s == s[..j] + [s[j]] + s[j + 1..];
    assert s[i] in s[..j];
  }

  lemma {:induction false} TwoPositions(s: seq<Table>, x: Table) returns (p: nat, q: nat)
    requires multiset(s)[x] >= 2
    ensures p < q < |s| && s[p] == x && s[q] == x
  {
    var n := |s| - 1;
    assert s == s[..n] + [s[n]];
    if s[n] == x {
      assert x in multiset(s[..n]);
      p :| 0 <= p < n && s[..n][p] == x;
      q := n;
    } else {
      p, q := TwoPositions(s[..n], x);
    }
  }

  /** Sorting an already sorted level changes nothing. */
  lemma {:induction false} SortByMinIdempotent(ts: seq<Table>)
    requires SortedByMin(ts)
    ensures SortByMin(ts) == ts
  {
    if ts != [] {
      var n := |ts| - 1;
      SortByMinIdempotent(ts[..n]);
      assert ts == ts[..n] + [ts[n]];
      assert n > 0 ==> Le(ts[n - 1].minKey, ts[n].minKey);
    }
  }

  lemma DisjointIsSorted(ts: seq<Table>)
    requires SortedDisjoint(ts)
    ensures SortedByMin(ts)
  {
    LtIsStrictTotalOrder();
    hide Lt;
  }
}
