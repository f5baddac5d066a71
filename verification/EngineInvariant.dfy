/** The invariant every operation keeps, from an empty engine, whatever the environment decides. */
module EngineInvariant {
  import opened Wrappers
  import opened ByteStrings
  import opened CompositeKeys
  import opened Entries
  import opened Tables
  import opened Manifests
  import opened Compaction
  import opened RangeTombstones
  import opened LevelInvariants
  import opened Engine
  import T = Tiers
  import SortedRuns

  ghost function TierOf(mt: Memtable): T.Tier {
    set e | e in mt.entries
  }

  ghost function MemTiers(mts: seq<Memtable>): (r: seq<T.Tier>)
    ensures |r| == |mts| && forall i :: 0 <= i < |mts| ==> r[i] == TierOf(mts[i])
  {
    seq(|mts|, i requires 0 <= i < |mts| => TierOf(mts[i]))
  }

  ghost function TiersOf(s: State): seq<T.Tier> {
    MemTiers(s.Memtables()) + T.LevelTiers(s.levels)
  }

  /** The entries are sorted and the tombstone index mirrors the range deletes among them. */
  ghost predicate GoodMemtable(mt: Memtable) {
    && StrictlySorted(mt.entries)
    && (forall t :: t in mt.tombstones ==> exists e :: e in mt.entries && e.kind == RangeDelete && TombstoneOf(e) == t)
    && (forall e :: e in mt.entries && e.kind == RangeDelete ==> TombstoneOf(e) in mt.tombstones)
  }

  /** Everything in `a` was written after everything in `b`. */
  ghost predicate Above(a: Memtable, b: Memtable) {
    forall e, f :: e in a.entries && f in b.entries ==> e.seqno > f.seqno
  }

  ghost predicate AllAbove(mt: Memtable, bound: nat) {
    forall e :: e in mt.entries ==> e.seqno > bound
  }

  ghost predicate GoodMemtables(mts: seq<Memtable>, flushed: nat) {
    && (forall i :: 0 <= i < |mts| ==> GoodMemtable(mts[i]) && AllAbove(mts[i], flushed))
    && (forall i, j :: 0 <= i < j < |mts| ==> Above(mts[i], mts[j]))
  }

  ghost predicate FlushedUpTo(levels: Levels, flushed: nat) {
    forall l, t, e :: 0 <= l < LEVELS && t in levels[l] && e in t.Contents() ==> e.seqno <= flushed
  }

  /** No version is stored in two L0 tables. */
  ghost predicate L0Distinct(ts: seq<Table>) {
    forall s, t, e :: s in ts && t in ts && e in s.Contents() && e in t.Contents() ==> s == t
  }

  ghost predicate GoodDisk(cfg: EngineConfig, s: State) {
    && s.levels == s.manifest.levels
    && ValidLevels(cfg.compaction, s.levels)
    && IdsBelow(s.levels, s.nextId)
    && FlushedUpTo(s.levels, s.manifest.lastFlushed)
    && L0Distinct(s.levels[0])
  }

  ghost predicate GoodMemory(s: State, log: seq<Entry>) {
    && T.LogOrdered(log)
    && (forall e :: e in log ==> e.seqno < s.nextSeqno)
    && s.active.nextSeqno == s.nextSeqno
    && s.manifest.lastFlushed < s.nextSeqno
    && GoodMemtables(s.Memtables(), s.manifest.lastFlushed)
    && (forall i :: 0 <= i < |s.frozen| ==> s.frozen[i].entries != [])
  }

  ghost predicate Inv(cfg: EngineConfig, s: State, log: seq<Entry>) {
    && GoodDisk(cfg, s)
    && GoodMemory(s, log)
    && T.Ordered(TiersOf(s))
    && T.Faithful(TiersOf(s), log)
  }

  lemma InitHolds(cfg: EngineConfig)
    ensures Inv(cfg, Init(), [])
  {
    var s := Init();
    EmptyDisk(cfg, s);
    assert GoodMemtable(s.active);
    assert T.Versions([]) == {} && TierOf(s.active) == {};
    hide T.Versions, TierOf, GoodDisk;
    EmptyIsFaithful(TiersOf(s));
  }

  lemma EmptyDisk(cfg: EngineConfig, s: State)
    requires s == Init()
    ensures GoodDisk(cfg, s)
  {
    assert forall l :: 0 <= l < LEVELS ==> s.levels[l] == [];
  }

  lemma EmptyIsFaithful(tiers: seq<T.Tier>)
    requires forall i :: 0 <= i < |tiers| ==> tiers[i] == {}
    ensures T.Ordered(tiers) && T.Faithful(tiers, [])
  {
  }

  // --- Accepting a write ---

  lemma InsertTier(mt: Memtable, e: Entry, token: Token)
    requires GoodMemtable(mt) && forall x :: x in mt.entries ==> x.seqno < mt.nextSeqno
    ensures GoodMemtable(InsertEntry(mt, e, token))
    ensures TierOf(InsertEntry(mt, e, token)) == TierOf(mt) + {e.(seqno := mt.nextSeqno)}
  {
    var numbered := e.(seqno := mt.nextSeqno);
    SortedRuns.InsertSorted(mt.entries, numbered);
    SortedRuns.InsertMembers(mt.entries, numbered);
    var after := InsertEntry(mt, e, token);
    hide StrictlySorted, SortedRuns.Insert, TombstoneOf;
    assert forall x :: x in after.entries <==> x == numbered || x in mt.entries;
    forall t | t in after.tombstones
      ensures exists x :: x in after.entries && x.kind == RangeDelete && TombstoneOf(x) == t
    {
      if t in mt.tombstones {
        var x :| x in mt.entries && x.kind == RangeDelete && TombstoneOf(x) == t;
        assert x in after.entries;
      } else {
        assert numbered in after.entries;
      }
    }
  }

  /** A newer version on top shows the new write and leaves every other key as it was. */
  lemma PushVersion(tiers: seq<T.Tier>, log: seq<Entry>, e: Entry)
    requires tiers != [] && T.Ordered(tiers) && T.Faithful(tiers, log) && T.LogOrdered(log)
    requires forall f :: f in log ==> f.seqno < e.seqno
    ensures T.LogOrdered(log + [e])
    ensures T.Ordered(tiers[0 := tiers[0] + {e}]) && T.Faithful(tiers[0 := tiers[0] + {e}], log + [e])
  {
    var after := tiers[0 := tiers[0] + {e}];
    forall i, j | 0 <= i < j < |after|
      ensures T.Newer(after[i], after[j])
    {
      assert T.Newer(tiers[i], tiers[j]);
    }
    forall k
      ensures T.Shown(after, log + [e], k)
    {
      assert (log + [e])[..|log|] == log;
      if k == e.key {
        assert e in after[0];
      } else {
        assert T.Shown(tiers, log, k);
        ShownElsewhere(tiers, log, after, e, k);
      }
    }
  }

  lemma ShownElsewhere(tiers: seq<T.Tier>, log: seq<Entry>, after: seq<T.Tier>, e: Entry, k: Bytes)
    requires tiers != [] && after == tiers[0 := tiers[0] + {e}] && k != e.key
    requires T.Shown(tiers, log, k) && Newest(log + [e], k) == Newest(log, k)
    ensures T.Shown(after, log + [e], k)
  {
    var last := Newest(log, k);
    if last.Some? {
      if T.InSomeTier(tiers, last.value) {
        var i :| 0 <= i < |tiers| && last.value in tiers[i];
        assert last.value in after[i];
      } else {
        forall i | 0 <= i < |after|
          ensures !T.HasVersion(after[i], k)
        {
          assert !T.HasVersion(tiers[i], k);
        }
      }
    }
  }

  lemma AcceptKeeps(cfg: EngineConfig, s: State, log: seq<Entry>, e: Entry, token: Token)
    requires Inv(cfg, s, log) && e.seqno == s.nextSeqno
    ensures Inv(cfg, Accept(s, e, token), log + [e])
  {
    var after := Accept(s, e, token);
    ActiveIsLogged(cfg, s, log);
    assert s.Memtables()[0] == s.active;
    InsertTier(s.active, e, token);
    PushVersion(TiersOf(s), log, e);
    assert TiersOf(after) == TiersOf(s)[0 := TiersOf(s)[0] + {e}];
    forall x | x in after.active.entries
      ensures x == e || x in s.active.entries
    {
      assert x in TierOf(after.active);
    }
    hide TiersOf, T.Ordered, T.Faithful, GoodDisk, InsertEntry;
    var mts, now := s.Memtables(), after.Memtables();
    assert mts[0] == s.active && now[0] == after.active && forall i :: 1 <= i < |mts| ==> now[i] == mts[i];
    forall i, j | 0 <= i < j < |now|
      ensures Above(now[i], now[j])
    {
      assert Above(mts[i], mts[j]);
      OlderAreLogged(cfg, s, log, j);
    }
  }

  lemma ActiveIsLogged(cfg: EngineConfig, s: State, log: seq<Entry>)
    requires Inv(cfg, s, log)
    ensures forall x :: x in s.active.entries ==> x in log
  {
    OlderAreLogged(cfg, s, log, 0);
  }

  lemma OlderAreLogged(cfg: EngineConfig, s: State, log: seq<Entry>, i: nat)
    requires T.Faithful(TiersOf(s), log) && i < |s.Memtables()|
    ensures forall x :: x in s.Memtables()[i].entries ==> x in log
  {
    forall x | x in s.Memtables()[i].entries
      ensures x in log
    {
      assert TiersOf(s)[i] == TierOf(s.Memtables()[i]);
      assert x in TiersOf(s)[i];
    }
  }

  // --- Freezing ---

  lemma FreezeKeeps(cfg: EngineConfig, s: State, log: seq<Entry>)
    requires Inv(cfg, s, log) && s.active.entries != [] && Freeze(cfg, s).Ok?
    ensures Inv(cfg, Freeze(cfg, s).value, log)
  {
    var after := Freeze(cfg, s).value;
    var empty: T.Tier := {};
    assert after.Memtables() == [after.active] + s.Memtables();
    assert TierOf(after.active) == empty;
    assert MemTiers(after.Memtables()) == [empty] + MemTiers(s.Memtables());
    assert TiersOf(after) == [empty] + TiersOf(s);
    EmptyOnTop(TiersOf(s), log);
    hide TiersOf, GoodDisk;
    forall i, j | 0 <= i < j < |after.Memtables()|
      ensures Above(after.Memtables()[i], after.Memtables()[j])
    {
      if i > 0 {
        assert Above(s.Memtables()[i - 1], s.Memtables()[j - 1]);
      }
    }
  }

  lemma EmptyOnTop(tiers: seq<T.Tier>, log: seq<Entry>)
    requires T.Ordered(tiers) && T.Faithful(tiers, log)
    ensures T.Ordered([{}] + tiers) && T.Faithful([{}] + tiers, log)
  {
    var empty: T.Tier := {};
    var after := [empty] + tiers;
    forall i, j | 0 <= i < j < |after|
      ensures T.Newer(after[i], after[j])
    {
      assert i > 0 ==> T.Newer(tiers[i - 1], tiers[j - 1]);
    }
    forall k
      ensures T.Shown(after, log, k)
    {
      assert T.Shown(tiers, log, k);
      var last := Newest(log, k);
      if last.Some? {
        if T.InSomeTier(tiers, last.value) {
          var i :| 0 <= i < |tiers| && last.value in tiers[i];
          assert last.value in after[i + 1];
        } else {
          forall i | 0 <= i < |after|
            ensures !T.HasVersion(after[i], k)
          {
            assert i > 0 ==> !T.HasVersion(tiers[i - 1], k);
          }
        }
      }
    }
  }

  // --- Flushing ---

  /** Joining two neighbouring tiers keeps the order and what is shown. */
  ghost function Joined(tiers: seq<T.Tier>, a: nat): seq<T.Tier>
    requires a + 1 < |tiers|
  {
    tiers[..a] + [tiers[a] + tiers[a + 1]] + tiers[a + 2..]
  }

  lemma JoinTiers(tiers: seq<T.Tier>, log: seq<Entry>, a: nat)
    requires T.Ordered(tiers) && T.Faithful(tiers, log) && a + 1 < |tiers|
    ensures T.Ordered(Joined(tiers, a)) && T.Faithful(Joined(tiers, a), log)
  {
    hide T.Newer, T.Shown, Joined;
    var after := Joined(tiers, a);
    JoinedTier(tiers, a);
    forall i, j | 0 <= i < j < |after|
      ensures T.Newer(after[i], after[j])
    {
      JoinedNewer(tiers, a, i, j);
    }
    forall k
      ensures T.Shown(after, log, k)
    {
      assert T.Shown(tiers, log, k);
      JoinedShown(tiers, log, a, k);
    }
    forall i, e: Entry | 0 <= i < |after| && e in after[i]
      ensures e in log
    {
      assert e in tiers[if i <= a then i else i + 1] || e in tiers[a + 1];
    }
  }

  lemma JoinedTier(tiers: seq<T.Tier>, a: nat)
    requires a + 1 < |tiers|
    ensures |Joined(tiers, a)| == |tiers| - 1
    ensures forall i :: 0 <= i < |tiers| - 1 ==>
              Joined(tiers, a)[i] == if i == a then tiers[a] + tiers[a + 1] else tiers[if i < a then i else i + 1]
  {
  }

  lemma JoinedNewer(tiers: seq<T.Tier>, a: nat, i: nat, j: nat)
    requires T.Ordered(tiers) && a + 1 < |tiers| && i < j < |tiers| - 1
    ensures |Joined(tiers, a)| == |tiers| - 1 && T.Newer(Joined(tiers, a)[i], Joined(tiers, a)[j])
  {
    hide Joined;
    JoinedTier(tiers, a);
    var p, q := if i <= a then i else i + 1, if j <= a then j else j + 1;
    assert T.Newer(tiers[p], tiers[q]);
    assert i == a ==> T.Newer(tiers[a + 1], tiers[q]);
    assert j == a ==> T.Newer(tiers[p], tiers[a + 1]);
  }

  lemma JoinedShown(tiers: seq<T.Tier>, log: seq<Entry>, a: nat, k: Bytes)
    requires a + 1 < |tiers| && T.Shown(tiers, log, k)
    ensures T.Shown(Joined(tiers, a), log, k)
  {
    hide Joined, Newest;
    JoinedTier(tiers, a);
    var after, last := Joined(tiers, a), Newest(log, k);
    if last.Some? {
      if T.InSomeTier(tiers, last.value) {
        var i :| 0 <= i < |tiers| && last.value in tiers[i];
        assert last.value in after[if i <= a then i else i - 1];
      } else {
        forall i | 0 <= i < |after|
          ensures !T.HasVersion(after[i], k)
        {
          assert !T.HasVersion(tiers[if i <= a then i else i + 1], k) && !T.HasVersion(tiers[a + 1], k);
        }
      }
    }
  }

  /** The table a flush writes fits L0. */
  lemma NewTableFits(cfg: EngineConfig, levels: Levels, id: nat, t: Table, es: seq<Entry>, flushed: nat)
    requires ValidLevels(cfg.compaction, levels) && IdsBelow(levels, id) && L0Distinct(levels[0]) && FlushedUpTo(levels, flushed)
    requires t.id == id && WellFormed(cfg.compaction.sst, t) && t.Contents() == es
    requires forall e :: e in es ==> e.seqno > flushed
    ensures ValidLevels(cfg.compaction, levels[0 := levels[0] + [t]])
    ensures IdsBelow(levels[0 := levels[0] + [t]], id + 1)
    ensures L0Distinct(levels[0] + [t])
    ensures T.Versions(levels[0] + [t]) == T.Versions(levels[0]) + set e | e in es
  {
    NewTableKeepsIds(cfg, levels, id, t);
    NewTableIsDistinct(levels, t, es, flushed);
    T.VersionsUnion(levels[0] + [t], levels[0], [t]);
  }

  lemma WellFormedIsGood(cfg: EngineConfig, t: Table)
    requires WellFormed(cfg.compaction.sst, t)
    ensures GoodTable(cfg.compaction, 0, t)
  {
  }

  ghost function WithNewTable(levels: Levels, t: Table): Levels {
    levels[0 := levels[0] + [t]]
  }

  lemma AddedMember(levels: Levels, t: Table, l: nat, x: Table)
    requires l < LEVELS
    ensures x in WithNewTable(levels, t)[l] <==> x in levels[l] || (l == 0 && x == t)
  {
  }

  lemma AddedIdsIdentify(levels: Levels, id: nat, t: Table)
    requires IdsIdentify(levels) && IdsBelow(levels, id) && t.id == id
    ensures IdsIdentify(WithNewTable(levels, t)) && IdsBelow(WithNewTable(levels, t), id + 1)
  {
    hide WithNewTable;
    var after := WithNewTable(levels, t);
    forall l, x | 0 <= l < LEVELS && x in after[l]
      ensures x.id < id + 1 && ((x in levels[l] && x.id < id) || (l == 0 && x == t))
    {
      AddedMember(levels, t, l, x);
    }
  }

  lemma AddedIdsDistinct(levels: Levels, id: nat, t: Table)
    requires DistinctIds(levels[0]) && IdsBelow(levels, id) && t.id == id
    ensures DistinctIds(WithNewTable(levels, t)[0])
  {
    assert forall i :: 0 <= i < |levels[0]| ==> levels[0][i] in levels[0];
  }

  lemma NewTableKeepsIds(cfg: EngineConfig, levels: Levels, id: nat, t: Table)
    requires ValidLevels(cfg.compaction, levels) && IdsBelow(levels, id)
    requires t.id == id && WellFormed(cfg.compaction.sst, t)
    ensures ValidLevels(cfg.compaction, levels[0 := levels[0] + [t]])
    ensures IdsBelow(levels[0 := levels[0] + [t]], id + 1)
  {
    hide GoodTable, SortedDisjoint, WellFormed, IdsIdentify, IdsBelow, DistinctIds;
    WellFormedIsGood(cfg, t);
    AddedIdsIdentify(levels, id, t);
    AddedIdsDistinct(levels, id, t);
    forall l, x | 0 <= l < LEVELS && x in WithNewTable(levels, t)[l]
      ensures GoodTable(cfg.compaction, l, x)
    {
      AddedMember(levels, t, l, x);
    }
  }

  lemma NewTableIsDistinct(levels: Levels, t: Table, es: seq<Entry>, flushed: nat)
    requires L0Distinct(levels[0]) && FlushedUpTo(levels, flushed) && t.Contents() == es
    requires forall e :: e in es ==> e.seqno > flushed
    ensures L0Distinct(levels[0] + [t])
  {
    var all := levels[0] + [t];
    forall x, y, e | x in all && y in all && e in x.Contents() && e in y.Contents()
      ensures x == y
    {
      assert x in levels[0] ==> e.seqno <= flushed;
      assert y in levels[0] ==> e.seqno <= flushed;
    }
  }

  /** Committing a flush to the manifest always succeeds and appends one L0 table. */
  lemma FlushCommits(cfg: EngineConfig, s: State, t: Table, max: nat, now: nat)
    requires IdsBelow(s.manifest.levels, s.nextId) && t.id == s.nextId && max >= s.manifest.lastFlushed
    ensures var u := FlushUpdate(s.manifest, t, max);
            && ValidUpdate(u, s.manifest)
            && Apply(u, s.manifest, now).Ok?
            && Apply(u, s.manifest, now).value.levels == s.manifest.levels[0 := s.manifest.levels[0] + [t]]
            && Apply(u, s.manifest, now).value.lastFlushed == max
  {
    var u := FlushUpdate(s.manifest, t, max);
    assert PositionOf(s.manifest.levels[0], t.id).None? by {
      forall x | x in s.manifest.levels[0]
        ensures x.id < s.nextId
      {
      }
    }
    assert u.add[1..] == [];
    assert RemoveAll(s.manifest.levels, u.remove) == Ok(s.manifest.levels);
    assert AddAll(s.manifest.levels, u.add) == AddOne(s.manifest.levels, 0, t);
  }

  /** What a flush makes of the state, once its commit is known to succeed. */
  lemma FlushResult(cfg: EngineConfig, s: State, now: nat) returns (after: State, t: Table)
    requires s.levels == s.manifest.levels && IdsBelow(s.levels, s.nextId)
    requires s.frozen != [] && s.frozen[|s.frozen| - 1].entries != []
    requires MaxSeqno(s.frozen[|s.frozen| - 1].entries) >= s.manifest.lastFlushed
    ensures t == WriteTable(cfg.compaction.sst, s.nextId, s.frozen[|s.frozen| - 1].entries, now)
    ensures FlushOldest(cfg, s, now) == (after, Ok(()))
    ensures after.levels == after.manifest.levels == s.levels[0 := s.levels[0] + [t]]
    ensures after.manifest.lastFlushed == MaxSeqno(s.frozen[|s.frozen| - 1].entries)
    ensures after.active == s.active && after.frozen == s.frozen[..|s.frozen| - 1]
    ensures after.nextSeqno == s.nextSeqno && after.nextId == s.nextId + 1
  {
    var mt := s.frozen[|s.frozen| - 1];
    t := WriteTable(cfg.compaction.sst, s.nextId, mt.entries, now);
    FlushCommits(cfg, s, t, MaxSeqno(mt.entries), now);
    after := FlushOldest(cfg, s, now).0;
    hide Apply, ValidUpdate;
  }

  /** What a flush does to memory and to the flushed mark. */
  lemma FlushFacts(cfg: EngineConfig, s: State, log: seq<Entry>, now: nat)
    requires Inv(cfg, s, log) && s.frozen != []
    ensures var t := FlushOldest(cfg, s, now).0; var n := |s.frozen| - 1;
            && t.manifest.lastFlushed == MaxSeqno(s.frozen[n].entries) >= s.manifest.lastFlushed
            && t.active == s.active && t.frozen == s.frozen[..n] && t.nextSeqno == s.nextSeqno
            && t.generation == s.generation
            && t.generations == if s.generations == [] then [] else s.generations[..|s.generations| - 1]
  {
    var n := |s.frozen| - 1;
    var mt := s.frozen[n];
    assert s.Memtables()[n + 1] == mt;
    assert AllAbove(mt, s.manifest.lastFlushed);
    var after, table := FlushResult(cfg, s, now);
    hide ValidUpdate, Apply;
  }

  lemma FlushKeeps(cfg: EngineConfig, s: State, log: seq<Entry>, now: nat)
    requires Inv(cfg, s, log) && s.frozen != []
    ensures FlushOldest(cfg, s, now).1.Ok?
    ensures Inv(cfg, FlushOldest(cfg, s, now).0, log)
  {
    var n := |s.frozen| - 1;
    var mt := s.frozen[n];
    assert s.Memtables()[n + 1] == mt;
    assert GoodMemtable(mt) && AllAbove(mt, s.manifest.lastFlushed);
    var max := MaxSeqno(mt.entries);
    WrittenTable(cfg.compaction.sst, s.nextId, mt.entries, now);
    var after, t := FlushResult(cfg, s, now);
    hide WriteTable, FlushOldest, ValidLevels, WellFormed, T.Ordered, T.Faithful, GoodMemtable, T.Versions, TiersOf;
    NewTableFits(cfg, s.levels, s.nextId, t, mt.entries, s.manifest.lastFlushed);
    JoinTiers(TiersOf(s), log, n + 1);
    FlushedTiers(s, after, mt, t);
    FlushedMemory(cfg, s, log, after, mt, max);
    FlushedDisk(s.levels, after.levels, t, mt.entries, s.manifest.lastFlushed, max);
  }

  lemma FlushedDisk(levels: Levels, after: Levels, t: Table, es: seq<Entry>, flushed: nat, max: nat)
    requires FlushedUpTo(levels, flushed) && flushed <= max && t.Contents() == es && forall e :: e in es ==> e.seqno <= max
    requires after == levels[0 := levels[0] + [t]]
    ensures FlushedUpTo(after, max)
  {
    forall l, x, e | 0 <= l < LEVELS && x in after[l] && e in x.Contents()
      ensures e.seqno <= max
    {
      assert x in levels[l] || (l == 0 && x == t);
    }
  }

  lemma FlushedTiers(s: State, after: State, mt: Memtable, t: Table)
    requires s.frozen != [] && mt == s.frozen[|s.frozen| - 1] && t.Contents() == mt.entries
    requires after.active == s.active && after.frozen == s.frozen[..|s.frozen| - 1] && after.levels == s.levels[0 := s.levels[0] + [t]]
    requires T.Versions(s.levels[0] + [t]) == T.Versions(s.levels[0]) + set e | e in mt.entries
    ensures TiersOf(after) == Joined(TiersOf(s), |s.frozen|)
  {
    var n := |s.frozen|;
    hide T.Versions;
    var tiers, now := TiersOf(s), TiersOf(after);
    assert |now| == |tiers| - 1;
    assert tiers[n] == TierOf(mt) && tiers[n + 1] == T.Versions(s.levels[0]);
    assert now[n] == T.Versions(s.levels[0] + [t]);
    assert now[n] == tiers[n] + tiers[n + 1];
    forall i | 0 <= i < |now|
      ensures now[i] == Joined(tiers, n)[i]
    {
      if i < n {
        assert after.Memtables()[i] == s.Memtables()[i];
      }
    }
  }

  lemma FlushedMemory(cfg: EngineConfig, s: State, log: seq<Entry>, after: State, mt: Memtable, max: nat)
    requires GoodMemory(s, log) && T.Faithful(TiersOf(s), log)
    requires s.frozen != [] && mt == s.frozen[|s.frozen| - 1] && max == MaxSeqno(mt.entries)
    requires after.active == s.active && after.frozen == s.frozen[..|s.frozen| - 1] && after.nextSeqno == s.nextSeqno
    requires after.manifest.lastFlushed == max
    ensures GoodMemory(after, log)
  {
    var n := |s.frozen|;
    var mts, now := s.Memtables(), after.Memtables();
    assert mts[n] == mt && forall i :: 0 <= i < n ==> now[i] == mts[i];
    var top :| top in mt.entries && top.seqno == max;
    OlderAreLogged(cfg, s, log, n);
    forall i | 0 <= i < |now|
      ensures AllAbove(now[i], max)
    {
      assert Above(mts[i], mts[n]);
    }
    forall i, j | 0 <= i < j < |now|
      ensures Above(now[i], now[j])
    {
      assert Above(mts[i], mts[j]);
    }
  }

  // --- Compacting ---

  lemma RebuildChangesNothing(cfg: EngineConfig, m: Manifest)
    requires ValidLevels(cfg.compaction, m.levels)
    ensures RebuildLevels(m) == m.levels
  {
    forall l | 1 <= l < LEVELS
      ensures SortByMin(m.levels[l]) == m.levels[l]
    {
      DisjointIsSorted(m.levels[l]);
      SortByMinIdempotent(m.levels[l]);
    }
  }

  lemma LevelsAreLogged(s: State, log: seq<Entry>)
    requires T.Faithful(TiersOf(s), log)
    ensures forall i, e :: 0 <= i < LEVELS && e in T.Versions(s.levels[i]) ==> e in log
  {
    hide T.Versions;
    var n := |s.Memtables()|;
    assert forall i :: 0 <= i < LEVELS ==> TiersOf(s)[n + i] == T.Versions(s.levels[i]);
  }

  lemma CompactedDisk(cfg: EngineConfig, s: State, log: seq<Entry>, task: Task, after: Levels, now: nat)
    requires GoodDisk(cfg, s) && T.LogOrdered(log) && T.Faithful(TiersOf(s), log)
    requires Proper(s.levels, task)
    requires Replaced(s.levels, after, task, NewTables(cfg.compaction, task, s.nextId, now))
    ensures FlushedUpTo(after, s.manifest.lastFlushed) && L0Distinct(after[0])
  {
    LevelsAreLogged(s, log);
    hide ValidLevels, TiersOf, NewTables, T.LogOrdered, T.Faithful;
    forall l, t, e | 0 <= l < LEVELS && t in after[l] && e in t.Contents()
      ensures e.seqno <= s.manifest.lastFlushed
    {
      CompactedVersion(cfg, s, log, task, after, now, l, t, e);
    }
    MinusMembers(s.levels[task.source], Ids(task.inputs));
    assert forall t :: t in after[0] ==> t in s.levels[0];
  }

  lemma CompactedVersion(cfg: EngineConfig, s: State, log: seq<Entry>, task: Task, after: Levels, now: nat, l: nat, t: Table, e: Entry)
    requires GoodDisk(cfg, s) && T.LogOrdered(log)
    requires forall i, f :: 0 <= i < LEVELS && f in T.Versions(s.levels[i]) ==> f in log
    requires Proper(s.levels, task)
    requires Replaced(s.levels, after, task, NewTables(cfg.compaction, task, s.nextId, now))
    requires l < LEVELS && t in after[l] && e in t.Contents()
    ensures e.seqno <= s.manifest.lastFlushed
  {
    assert e in T.Versions(after[l]);
    T.ReplacementAddsNothing(cfg.compaction, task, s.levels, s.nextId, now, log, after, l, e);
    hide ValidLevels, NewTables, Replaced;
    var from := if e in T.Versions(s.levels[l]) then l else task.source;
    var x :| x in s.levels[from] && e in x.Contents();
  }

  ghost function AfterTask(cfg: EngineConfig, s: State, task: Task, m: Manifest): State {
    s.(manifest := m, levels := RebuildLevels(m), nextId := s.nextId + IdsUsed(cfg.compaction, task))
  }

  lemma TaskKeeps(cfg: EngineConfig, s: State, log: seq<Entry>, task: Task, now: nat) returns (m: Manifest)
    requires Inv(cfg, s, log) && Proper(s.levels, task)
    ensures Execute(cfg.compaction, task, s.manifest, s.nextId, now) == Ok(m)
    ensures Replaced(s.levels, m.levels, task, NewTables(cfg.compaction, task, s.nextId, now))
    ensures RebuildLevels(m) == m.levels
    ensures Inv(cfg, AfterTask(cfg, s, task, m), log)
  {
    hide T.Ordered, T.Faithful, T.LevelTiers, MemTiers, ValidLevels, Proper, NewTables, Replaced, IdsUsed, RebuildLevels;
    assert task.target == task.source + 1 < LEVELS by {
      ProperShape(s.levels, task);
    }
    ExecuteEffect(cfg.compaction, task, s.manifest, s.nextId, now);
    m := Execute(cfg.compaction, task, s.manifest, s.nextId, now).value;
    T.CompactionIsFaithful(cfg.compaction, task, s.manifest, s.nextId, now, MemTiers(s.Memtables()), log);
    hide Execute;
    IdsStayBelow(cfg.compaction, s.levels, task, m.levels, s.nextId, now);
    RebuildChangesNothing(cfg, m);
    CompactedDisk(cfg, s, log, task, m.levels, now);
    assert AfterTask(cfg, s, task, m).Memtables() == s.Memtables();
  }

  lemma ReadyForTasks(cfg: EngineConfig, s: State, log: seq<Entry>, tasks: seq<Task>)
    requires Inv(cfg, s, log) && Chain(s.levels, tasks) && tasks != []
    ensures s.levels == s.manifest.levels && ValidLevels(cfg.compaction, s.levels) && IdsBelow(s.levels, s.nextId)
    ensures Pending(s.levels, tasks[0])
  {
    hide GoodMemory, T.Ordered, T.Faithful, ValidLevels, Pending, Proper;
  }

  lemma {:induction false} TasksKeep(cfg: EngineConfig, s: State, log: seq<Entry>, tasks: seq<Task>, now: nat)
    requires Inv(cfg, s, log) && Chain(s.levels, tasks)
    ensures Inv(cfg, RunTasks(cfg, s, tasks, now).0, log)
    decreases |tasks|
  {
    hide Inv, ValidLevels, Chain, Pending, Proper, Execute, IdsBelow, NewTables, Replaced, RebuildLevels;
    if tasks != [] {
      var task := tasks[0];
      ReadyForTasks(cfg, s, log, tasks);
      PendingRunsOrFails(cfg.compaction, task, s.manifest, s.nextId, now);
      if Proper(s.levels, task) {
        var m := TaskKeeps(cfg, s, log, task, now);
        ProperShape(s.levels, task);
        ChainSurvives(cfg.compaction, s.levels, tasks, m.levels, s.nextId, now);
        TasksKeep(cfg, AfterTask(cfg, s, task, m), log, tasks[1..], now);
      }
    }
  }

  lemma CompactKeeps(cfg: EngineConfig, s: State, log: seq<Entry>, now: nat)
    requires Inv(cfg, s, log)
    ensures Inv(cfg, MaybeCompact(cfg, s, now).0, log)
  {
    ScheduledTasksFit(cfg.compaction, s.levels);
    TasksKeep(cfg, s, log, CheckTriggers(cfg.compaction, s.levels), now);
  }

  // --- Every run ---

  lemma FlushFrozenKeeps(cfg: EngineConfig, s: State, log: seq<Entry>, now: nat)
    requires Inv(cfg, s, log) && s.frozen != []
    ensures Inv(cfg, FlushFrozen(cfg, s, now).0, log)
  {
    FlushKeeps(cfg, s, log, now);
    CompactKeeps(cfg, FlushOldest(cfg, s, now).0, log, now);
  }

  lemma WriteKeeps(cfg: EngineConfig, s: State, log: seq<Entry>, op: Op)
    requires Inv(cfg, s, log)
    requires op.PutOp? || op.DeleteOp? || op.DeleteRangeOp?
    ensures Inv(cfg, Write(cfg, s, op).0, log + Logged(cfg, s, op))
  {
    assert log + [] == log;
    if !Stalled(cfg, s, op.env) && Request(s, op).Ok? {
      var (e, token) := Request(s, op).value;
      AcceptKeeps(cfg, s, log, e, token);
      var accepted := Accept(s, e, token);
      if op.env.freezeDue && Freeze(cfg, accepted).Ok? {
        InsertTier(s.active, e, token) by {
          ActiveIsLogged(cfg, s, log);
          assert s.Memtables()[0] == s.active;
        }
        assert e in TierOf(accepted.active);
        FreezeKeeps(cfg, accepted, log + [e]);
        FlushFrozenKeeps(cfg, Freeze(cfg, accepted).value, log + [e], op.env.now);
      }
    }
  }

  lemma StepKeeps(cfg: EngineConfig, s: State, log: seq<Entry>, op: Op)
    requires Inv(cfg, s, log)
    ensures Inv(cfg, Step(cfg, s, op).0, log + Logged(cfg, s, op))
  {
    assert log + [] == log;
    match op
    case FreezeOp =>
      if s.active.entries != [] && Freeze(cfg, s).Ok? {
        FreezeKeeps(cfg, s, log);
      }
    case FlushOp(now) =>
      if s.frozen != [] {
        FlushFrozenKeeps(cfg, s, log, now);
      }
    case CompactOp(now) => CompactKeeps(cfg, s, log, now);
    case _ => WriteKeeps(cfg, s, log, op);
  }

  /** Every run from an empty engine keeps the invariant against its own history. */
  lemma {:induction false} RunKeeps(cfg: EngineConfig, ops: seq<Op>)
    ensures Inv(cfg, Run(cfg, ops), History(cfg, ops))
  {
    if ops == [] {
      InitHolds(cfg);
    } else {
      RunKeeps(cfg, ops[..|ops| - 1]);
      StepKeeps(cfg, Run(cfg, ops[..|ops| - 1]), History(cfg, ops[..|ops| - 1]), ops[|ops| - 1]);
    }
  }
}
