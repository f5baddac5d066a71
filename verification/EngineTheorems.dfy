/** What a user of the engine can rely on, and exactly where the code falls short. */
module EngineTheorems {
  import opened Wrappers
  import opened ByteStrings
  import opened CompositeKeys
  import opened Entries
  import opened Tables
  import opened Manifests
  import opened Compaction
  import opened RangeTombstones
  import opened LevelInvariants
  import opened Engine
  import opened EngineInvariant
  import opened EngineReads
  import BlockCodec
  import BloomFilters
  import SortedRuns

  // --- A plain map ---

  datatype Item = Item(value: Bytes, metadata: Bytes)

  /** The map a history of puts and deletes stands for. */
  function Meaning(log: seq<Entry>): map<Bytes, Item> {
    if log == [] then map[]
    else
      var e, before := log[|log| - 1], Meaning(log[..|log| - 1]);
      if e.kind == Put then before[e.key := Item(e.value, e.metadata)] else before - {e.key}
  }

  function ItemOf(e: Option<Entry>): Option<Item> {
    if e.Some? then Some(Item(e.value.value, e.value.metadata)) else None
  }

  function At<V>(m: map<Bytes, V>, k: Bytes): Option<V> {
    if k in m then Some(m[k]) else None
  }

  ghost predicate WritesInOrder(log: seq<Entry>) {
    forall i, j :: 0 <= i < j < |log| ==> log[i].seqno < log[j].seqno
  }

  lemma {:induction false} MeaningIsLastWrite(log: seq<Entry>, k: Bytes)
    requires WritesInOrder(log)
    ensures k in Meaning(log) <==> Newest(log, k).Some? && Newest(log, k).value.kind == Put
    ensures k in Meaning(log) ==> Meaning(log)[k] == Item(Newest(log, k).value.value, Newest(log, k).value.metadata)
  {
    if log != [] {
      MeaningIsLastWrite(log[..|log| - 1], k);
    }
  }

  ghost predicate NoRangeDeletes(ops: seq<Op>) {
    forall i :: 0 <= i < |ops| ==> !ops[i].DeleteRangeOp?
  }

  lemma {:induction false} HistoryHasNoRanges(cfg: EngineConfig, ops: seq<Op>)
    requires NoRangeDeletes(ops)
    ensures forall e :: e in History(cfg, ops) ==> e.kind != RangeDelete
  {
    if ops != [] {
      HistoryHasNoRanges(cfg, ops[..|ops| - 1]);
    }
  }

  lemma EmptyOrInhabited(ts: seq<RangeTombstone>)
    ensures ts == [] || exists t :: t in ts
  {
    assert ts == [] || ts[0] in ts;
  }

  lemma NoTombstonesBuffered(cfg: EngineConfig, s: State, log: seq<Entry>, record: Bytes, item: Bytes, seqno: nat)
    requires Inv(cfg, s, log) && forall e :: e in log ==> e.kind != RangeDelete
    ensures !ListCovers(s.Memtables(), record, item, seqno)
  {
    forall i | 0 <= i < |s.Memtables()|
      ensures s.Memtables()[i].tombstones == []
    {
      var mt := s.Memtables()[i];
      assert GoodMemtable(mt);
      OlderAreLogged(cfg, s, log, i);
      EmptyOrInhabited(mt.tombstones);
    }
  }

  /** What a version shows when no range delete covers it. */
  function Served(e: Option<Entry>): Option<Item> {
    if e.None? || e.value.IsTombstone() then None else ItemOf(e)
  }

  /** Puts and point deletes: every read of every run is a lookup in the plain map of its history,
      except exactly where a block boundary hides the last write behind a version that shows something
      else. */
  lemma {:induction false} EngineIsAMap(cfg: EngineConfig, ops: seq<Op>, k: Bytes)
    requires NoRangeDeletes(ops)
    ensures var s, log := Run(cfg, ops), History(cfg, ops);
            ItemOf(PointRead(cfg, s, k)) == At(Meaning(log), k) <==>
              (Obscured(s, k) ==> Served(Candidate(cfg, s, k)) == Served(Newest(log, k)))
  {
    hide Run, History, Inv, Candidate, Obscured, Newest, Meaning, ListCovers;
    var s, log := Run(cfg, ops), History(cfg, ops);
    RunKeeps(cfg, ops);
    HistoryHasNoRanges(cfg, ops);
    MapShowsLast(cfg, s, log, k);
    ServesCandidate(cfg, s, log, k);
    if !Obscured(s, k) {
      ReadIsLastWrite(cfg, s, log, k);
      if Newest(log, k).Some? {
        NoTombstonesBuffered(cfg, s, log, RecordId(k), ItemKey(k), Newest(log, k).value.seqno);
      }
    }
  }

  lemma MapShowsLast(cfg: EngineConfig, s: State, log: seq<Entry>, k: Bytes)
    requires Inv(cfg, s, log) && forall e :: e in log ==> e.kind != RangeDelete
    ensures At(Meaning(log), k) == Served(Newest(log, k))
  {
    MeaningIsLastWrite(log, k);
  }

  /** Without range deletes a read shows the version it settles on. */
  lemma ServesCandidate(cfg: EngineConfig, s: State, log: seq<Entry>, k: Bytes)
    requires Inv(cfg, s, log) && forall e :: e in log ==> e.kind != RangeDelete
    ensures ItemOf(PointRead(cfg, s, k)) == Served(Candidate(cfg, s, k))
  {
    hide Inv, Candidate, ListCovers;
    var c := Candidate(cfg, s, k);
    if c.Some? {
      NoTombstonesBuffered(cfg, s, log, RecordId(k), ItemKey(k), c.value.seqno);
    }
  }

  // --- Levels ---

  /** In every run, whatever is flushed and compacted and however stale the later tasks of a plan
      are, the levels below L0 stay sorted and disjoint, and the search of such a level returns the one
      table whose range holds the key, if there is one. */
  lemma {:induction false} LevelsStayDisjoint(cfg: EngineConfig, ops: seq<Op>, l: nat, k: Bytes)
    requires 1 <= l < LEVELS
    ensures var ts := Run(cfg, ops).levels[l];
            && ts == Run(cfg, ops).manifest.levels[l]
            && SortedDisjoint(ts)
            && (FindTable(ts, k).None? ==> forall t :: t in ts ==> !t.ContainsKey(k))
            && (FindTable(ts, k).Some? ==> FindTable(ts, k).value in ts && FindTable(ts, k).value.ContainsKey(k))
            && (forall t :: t in ts && t.ContainsKey(k) ==> FindTable(ts, k) == Some(t))
  {
    hide Run;
    RunKeeps(cfg, ops);
    DisjointBelowL0(cfg, Run(cfg, ops), History(cfg, ops), l);
    hide Inv, SortedDisjoint;
    FindTableUnique(Run(cfg, ops).levels[l], k);
  }

  lemma DisjointBelowL0(cfg: EngineConfig, s: State, log: seq<Entry>, l: nat)
    requires Inv(cfg, s, log) && 1 <= l < LEVELS
    ensures s.levels == s.manifest.levels && SortedDisjoint(s.levels[l])
  {
    hide SortedDisjoint, T.Ordered, T.Faithful, GoodMemory;
  }

  // --- Block boundaries ---

  /** Exactly when the search of the levels settles on the last write of a flushed key: no block
      boundary of an L0 table lies between it and an older version of the same key. And exactly when
      the read then misses it: the boundary is there, and one of the two versions is to be seen. */
  lemma {:induction false} StaleReadIff(cfg: EngineConfig, ops: seq<Op>, k: Bytes)
    requires !Buffered(Run(cfg, ops).Memtables(), k)
    requires Newest(Stored(Run(cfg, ops).levels), k).Some?
    ensures var s, log := Run(cfg, ops), History(cfg, ops);
            && (Candidate(cfg, s, k) == Newest(log, k) <==> !HiddenBySplit(s.levels, k))
            && (PointRead(cfg, s, k) != ReadSpec(s, log, k) <==>
                  HiddenBySplit(s.levels, k) && !(Concealed(s, k, Newest(log, k)) && Concealed(s, k, Candidate(cfg, s, k))))
  {
    var s, log := Run(cfg, ops), History(cfg, ops);
    RunKeeps(cfg, ops);
    hide Run, History, Concealed, PointRead, ReadSpec;
    ReadIsLastWriteIff(cfg, s, log, k);
    NothingBuffered(s.Memtables(), k);
    LevelFacts(cfg, s, log);
    LevelsAnswerIff(cfg, s.levels, k);
    DiskHoldsLast(cfg, s, log, k);
  }

  /** Overwriting a key and flushing, with one entry filling a block. */
  function Overwrite(v: Bytes, w: Bytes): seq<Op> {
    var env := Env(false, false, 0);
    [PutOp([1], [2], v, [], NO_TOKEN, env), PutOp([1], [2], w, [], NO_TOKEN, env), FreezeOp, FlushOp(0)]
  }

  const KEY: Bytes := [1, 0, 2]

  function Version(v: Bytes, seqno: nat): Entry {
    Entry(KEY, v, [], Put, seqno)
  }

  lemma RunSnoc(cfg: EngineConfig, ops: seq<Op>, op: Op)
    ensures Run(cfg, ops + [op]) == Step(cfg, Run(cfg, ops), op).0
    ensures History(cfg, ops + [op]) == History(cfg, ops) + Logged(cfg, Run(cfg, ops), op)
  {
    assert (ops + [op])[..|ops|] == ops;
  }

  lemma PutStep(cfg: EngineConfig, s: State, v: Bytes)
    requires cfg.compaction.l0Stop > 0 && s.manifest.levels == [[], [], [], []] && s.active.nextSeqno == s.nextSeqno
    ensures var op := PutOp([1], [2], v, [], NO_TOKEN, Env(false, false, 0));
            && Logged(cfg, s, op) == [Version(v, s.nextSeqno)]
            && Step(cfg, s, op).0 == s.(nextSeqno := s.nextSeqno + 1, active := InsertEntry(s.active, Version(v, s.nextSeqno), NO_TOKEN))
  {
    assert Join([1], [2]) == KEY;
    assert NewKey([1], [2]) == Ok(KEY);
    assert !Stalled(cfg, s, Env(false, false, 0));
    hide Join, NewKey, InsertEntry;
  }

  lemma OverwriteBuffered(cfg: EngineConfig, v: Bytes, w: Bytes)
    requires cfg.compaction.l0Stop > 0
    ensures var s := Run(cfg, Overwrite(v, w)[..2]);
            && s.active.entries == [Version(w, 2), Version(v, 1)]
            && s.frozen == [] && s.levels == s.manifest.levels == [[], [], [], []] && s.manifest.lastFlushed == 0 && s.nextId == 0
    ensures History(cfg, Overwrite(v, w)[..2]) == [Version(v, 1), Version(w, 2)]
  {
    var ops := Overwrite(v, w);
    assert ops[..1] == [] + [ops[0]] && ops[..2] == ops[..1] + [ops[1]];
    assert Run(cfg, []) == Init() && History(cfg, []) == [];
    RunSnoc(cfg, [], ops[0]);
    PutStep(cfg, Init(), v);
    RunSnoc(cfg, ops[..1], ops[1]);
    var s1 := Run(cfg, ops[..1]);
    assert s1.active.entries == [Version(v, 1)] && s1.nextSeqno == 2;
    PutStep(cfg, s1, w);
    hide Run, History, Step, Logged;
    assert SortedRuns.Insert([Version(v, 1)], Version(w, 2)) == [Version(w, 2), Version(v, 1)] by {
      LtIrreflexive(KEY);
    }
  }

  lemma SingletonBlocks(a: Entry, b: Entry, target: nat)
    requires target <= 1
    ensures SplitBlocks([], [a, b], target) == [[a], [b]]
  {
    BlockCodec.EncodeNonempty(a, None);
    BlockCodec.EncodeNonempty(b, None);
    hide BlockCodec.EncodeEntry;
    assert [] + [a] == [a] && [] + [b] == [b] && [a, b][1..] == [b];
    assert BlockCodec.EncodeAll([a], None) == BlockCodec.EncodeEntry(a, None) + [];
    assert BlockCodec.EncodeAll([b], None) == BlockCodec.EncodeEntry(b, None) + [];
    assert SplitBlocks([], [b], target) == [[b]] + SplitBlocks([], [], target);
  }

  lemma OverwriteFlushed(cfg: EngineConfig, v: Bytes, w: Bytes) returns (t: Table)
    requires cfg.compaction.l0Stop > 0 && cfg.compaction.l0Trigger > 0 && cfg.maxFrozen > 0 && cfg.compaction.sst.blockTarget <= 1
    ensures var s := Run(cfg, Overwrite(v, w));
            s.active == EmptyMemtable(s.active.nextSeqno) && s.frozen == [] && s.levels == [[t], [], [], []]
    ensures t.blocks == [[Version(w, 2)], [Version(v, 1)]]
    ensures History(cfg, Overwrite(v, w)) == [Version(v, 1), Version(w, 2)]
  {
    var ops := Overwrite(v, w);
    OverwriteBuffered(cfg, v, w);
    assert ops[..3] == ops[..2] + [ops[2]] && ops == ops[..3] + [ops[3]];
    RunSnoc(cfg, ops[..2], ops[2]);
    RunSnoc(cfg, ops[..3], ops[3]);
    var s2, s3 := Run(cfg, ops[..2]), Run(cfg, ops[..3]);
    hide Run, History;
    FreezeFirst(cfg, s2);
    t := FlushFirst(cfg, s3);
    SingletonBlocks(Version(w, 2), Version(v, 1), cfg.compaction.sst.blockTarget);
  }

  lemma FreezeFirst(cfg: EngineConfig, s: State)
    requires s.active.entries != [] && s.frozen == [] && cfg.maxFrozen > 0
    ensures Logged(cfg, s, FreezeOp) == []
    ensures var after := Step(cfg, s, FreezeOp).0;
            && after.frozen == [s.active] && after.active == EmptyMemtable(s.active.nextSeqno)
            && after.levels == s.levels && after.manifest == s.manifest && after.nextId == s.nextId
  {
    assert [s.active] + [] == [s.active];
  }

  lemma FlushFirst(cfg: EngineConfig, s: State) returns (t: Table)
    requires s.levels == s.manifest.levels == [[], [], [], []] && s.manifest.lastFlushed == 0
    requires |s.frozen| == 1 && s.frozen[0].entries != [] && cfg.compaction.l0Trigger > 0
    ensures Logged(cfg, s, FlushOp(0)) == []
    ensures t == WriteTable(cfg.compaction.sst, s.nextId, s.frozen[0].entries, 0)
    ensures var after := Step(cfg, s, FlushOp(0)).0; after.active == s.active && after.frozen == [] && after.levels == [[t], [], [], []]
    ensures FlushOldest(cfg, s, 0).1.Ok? && Step(cfg, s, FlushOp(0)).0 == FlushOldest(cfg, s, 0).0
    ensures FlushOldest(cfg, s, 0).0.manifest.lastFlushed == MaxSeqno(s.frozen[0].entries)
  {
    hide FlushOldest, WriteTable, CheckTriggers, Execute, MaxSeqno;
    var after;
    after, t := FlushResult(cfg, s, 0);
    assert s.levels[0] + [t] == [t];
    assert s.levels[0 := [t]] == [[t], [], [], []];
    NothingToCompact(cfg, t);
  }

  lemma NothingToCompact(cfg: EngineConfig, t: Table)
    requires cfg.compaction.l0Trigger > 0
    ensures CheckTriggers(cfg.compaction, [[t], [], [], []]) == []
  {
  }

  lemma ReadOnlyTable(cfg: EngineConfig, s: State, t: Table, k: Bytes, e: Entry)
    requires s.active == EmptyMemtable(s.active.nextSeqno) && s.frozen == [] && s.levels == [[t], [], [], []]
    requires Get(cfg.compaction.sst, t, k) == Some(e) && e.kind == Put && e.key == k
    ensures PointRead(cfg, s, k) == Some(e)
  {
    GetNeedsFilter(cfg.compaction.sst, t, k);
    hide Get;
    assert s.Memtables() == [s.active] && [s.active][1..] == [];
    assert ListGet(s.Memtables(), k) == None;
    assert [t][1..] == [] && LevelAnswers(cfg.compaction.sst, [t][1..], true, k) == [];
    assert Answers(cfg.compaction.sst, s.levels, k) == [e];
    assert [e][..0] == [] && Newest([e], k) == Some(e);
  }

  /** A run whose read returns the overwritten value: the two versions of the key fill two blocks. */
  lemma OverwriteReadsStale(cfg: EngineConfig, v: Bytes, w: Bytes)
    requires cfg.compaction.l0Stop > 0 && cfg.compaction.l0Trigger > 0 && cfg.maxFrozen > 0 && cfg.compaction.sst.blockTarget <= 1
    ensures PointRead(cfg, Run(cfg, Overwrite(v, w)), KEY) == Some(Version(v, 1))
    ensures Newest(History(cfg, Overwrite(v, w)), KEY) == Some(Version(w, 2))
  {
    var ops := Overwrite(v, w);
    var t := OverwriteFlushed(cfg, v, w);
    var s := Run(cfg, ops);
    RunKeeps(cfg, ops);
    assert t in s.levels[0] && GoodTable(cfg.compaction, 0, t);
    hide Run, History, Inv, PointRead, Get;
    LastOfTwo(Version(v, 1), Version(w, 2));
    GetsOlder(cfg, t, Version(w, 2), Version(v, 1));
    ReadOnlyTable(cfg, s, t, KEY, Version(v, 1));
  }

  lemma LastOfTwo(a: Entry, b: Entry)
    requires a.key == b.key == KEY && a.seqno < b.seqno
    ensures Newest([a, b], KEY) == Some(b) && Newest([a], KEY) == Some(a)
  {
    assert [a, b][..1] == [a] && [a][..0] == [];
  }

  lemma GetsOlder(cfg: EngineConfig, t: Table, newer: Entry, older: Entry)
    requires WellFormed(cfg.compaction.sst, t) && t.blocks == [[newer], [older]] && newer.key == older.key == KEY
    ensures Get(cfg.compaction.sst, t, KEY) == Some(older)
  {
    assert t.blocks[1..] == [[older]] && [[older]][1..] == [];
    assert BlocksUpTo([[older]], KEY) == 1 && BlocksUpTo(t.blocks, KEY) == 2;
    FlattenMember(t.blocks, newer);
    assert newer in t.blocks[0];
    assert RecordId(KEY) in RecordsOf(t.Contents());
    BloomFilters.NoFalseNegatives(cfg.compaction.sst.hash, RecordsOf(t.Contents()), cfg.compaction.sst.bitsPerKey, RecordId(KEY));
    assert [older][..0] == [];
  }

  // --- Range deletes ---

  /** A range delete of the history that covers the key and was written after `seqno`. */
  ghost predicate DeletedByRange(log: seq<Entry>, k: Bytes, seqno: nat) {
    exists r :: r in log && r.kind == RangeDelete && Hides(TombstoneOf(r), RecordId(k), ItemKey(k), seqno)
  }

  /** The reading a user expects: range deletes count for ever. */
  ghost function IdealRead(log: seq<Entry>, k: Bytes): Option<Entry> {
    var last := Newest(log, k);
    if last.None? || last.value.IsTombstone() || DeletedByRange(log, k, last.value.seqno) then None else last
  }

  lemma BufferedRangesAreLogged(cfg: EngineConfig, s: State, log: seq<Entry>, k: Bytes, seqno: nat)
    requires Inv(cfg, s, log) && ListCovers(s.Memtables(), RecordId(k), ItemKey(k), seqno)
    ensures DeletedByRange(log, k, seqno)
  {
    var i :| 0 <= i < |s.Memtables()| && Covers(s.Memtables()[i].tombstones, RecordId(k), ItemKey(k), seqno);
    var mt := s.Memtables()[i];
    var j :| 0 <= j < |mt.tombstones| && Hides(mt.tombstones[j], RecordId(k), ItemKey(k), seqno);
    assert GoodMemtable(mt) && mt.tombstones[j] in mt.tombstones;
    var r :| r in mt.entries && r.kind == RangeDelete && TombstoneOf(r) == mt.tombstones[j];
    OlderAreLogged(cfg, s, log, i);
  }

  /** A read honours the range deletes of the history exactly as long as one that covers the key is
      still in a memtable: the engine forgets a range delete when it flushes it. */
  lemma {:induction false} RangeDeleteHonouredIff(cfg: EngineConfig, ops: seq<Op>, k: Bytes)
    requires !Obscured(Run(cfg, ops), k)
    requires Newest(History(cfg, ops), k).Some? && Newest(History(cfg, ops), k).value.kind == Put
    ensures var s, log := Run(cfg, ops), History(cfg, ops);
            var seqno := Newest(log, k).value.seqno;
            PointRead(cfg, s, k) == IdealRead(log, k) <==>
              (DeletedByRange(log, k, seqno) ==> ListCovers(s.Memtables(), RecordId(k), ItemKey(k), seqno))
  {
    var s, log := Run(cfg, ops), History(cfg, ops);
    EveryReadIsLastWrite(cfg, ops, k);
    RunKeeps(cfg, ops);
    var seqno := Newest(log, k).value.seqno;
    if ListCovers(s.Memtables(), RecordId(k), ItemKey(k), seqno) {
      BufferedRangesAreLogged(cfg, s, log, k, seqno);
    }
  }

  /** In particular, once nothing is buffered, every key whose last own write is a put reads as
      present, whatever range deletes came after it. */
  lemma {:induction false} FlushedRangeDeletesAreForgotten(cfg: EngineConfig, ops: seq<Op>, k: Bytes)
    requires !Obscured(Run(cfg, ops), k)
    requires Newest(History(cfg, ops), k).Some? && Newest(History(cfg, ops), k).value.kind == Put
    requires Run(cfg, ops).active.entries == [] && Run(cfg, ops).frozen == []
    ensures PointRead(cfg, Run(cfg, ops), k) == Newest(History(cfg, ops), k)
  {
    hide Run, History, Inv, PointRead, Obscured, ListCovers;
    EveryReadIsLastWrite(cfg, ops, k);
    RunKeeps(cfg, ops);
    NothingCoversInEmptyMemory(cfg, Run(cfg, ops), History(cfg, ops), k, Newest(History(cfg, ops), k).value.seqno);
  }

  lemma NothingCoversInEmptyMemory(cfg: EngineConfig, s: State, log: seq<Entry>, k: Bytes, seqno: nat)
    requires Inv(cfg, s, log) && s.active.entries == [] && s.frozen == []
    ensures !ListCovers(s.Memtables(), RecordId(k), ItemKey(k), seqno)
  {
    hide GoodDisk, T.Ordered, T.Faithful;
    assert s.Memtables() == [s.active];
    assert GoodMemtable(s.Memtables()[0]);
    EmptyOrInhabited(s.active.tombstones);
  }

  /** Writing an item, deleting a range that holds it, and flushing both. */
  function Forgotten(v: Bytes): seq<Op> {
    var env := Env(false, false, 0);
    [PutOp([1], [2], v, [], NO_TOKEN, env), DeleteRangeOp([1], [2], [3], env), FreezeOp, FlushOp(0)]
  }

  function RangeVersion(seqno: nat): Entry {
    Entry([1, 0, RANGE_TOMBSTONE_PREFIX, 2], [3], [], RangeDelete, seqno)
  }

  lemma RangeStep(cfg: EngineConfig, s: State)
    requires cfg.compaction.l0Stop > 0 && s.manifest.levels == [[], [], [], []] && s.active.nextSeqno == s.nextSeqno
    ensures var op := DeleteRangeOp([1], [2], [3], Env(false, false, 0));
            && Logged(cfg, s, op) == [RangeVersion(s.nextSeqno)]
            && Step(cfg, s, op).0 == s.(nextSeqno := s.nextSeqno + 1, active := InsertEntry(s.active, RangeVersion(s.nextSeqno), NO_TOKEN))
  {
    assert [RANGE_TOMBSTONE_PREFIX] + [2] == [RANGE_TOMBSTONE_PREFIX, 2];
    assert Join([1], [RANGE_TOMBSTONE_PREFIX, 2]) == [1, 0, RANGE_TOMBSTONE_PREFIX, 2];
    assert RangeTombstoneKey([1], [2]) == Ok([1, 0, RANGE_TOMBSTONE_PREFIX, 2]);
    assert !Stalled(cfg, s, Env(false, false, 0));
    hide Join, NewKey, InsertEntry;
  }

  lemma KeysApart()
    ensures Lt(KEY, [1, 0, RANGE_TOMBSTONE_PREFIX, 2]) && !Lt([1, 0, RANGE_TOMBSTONE_PREFIX, 2], KEY)
    ensures RecordId(KEY) == [1] && ItemKey(KEY) == [2]
    ensures RecordId([1, 0, RANGE_TOMBSTONE_PREFIX, 2]) == [1] && ItemKey([1, 0, RANGE_TOMBSTONE_PREFIX, 2]) == [RANGE_TOMBSTONE_PREFIX, 2]
  {
    var tail: Bytes := [RANGE_TOMBSTONE_PREFIX, 2];
    LtCommonPrefix([1, 0], [2], tail);
    LtIsStrictTotalOrder();
    assert [1, 0] + [2] == KEY && [1, 0] + tail == [1, 0, RANGE_TOMBSTONE_PREFIX, 2];
    assert Lt([2], tail);
    assert Join([1], [2]) == KEY && Join([1], tail) == [1, 0, RANGE_TOMBSTONE_PREFIX, 2];
    JoinSplit([1], [2]);
    JoinSplit([1], tail);
  }

  lemma RangeBuffered(cfg: EngineConfig, v: Bytes)
    requires cfg.compaction.l0Stop > 0
    ensures var s := Run(cfg, Forgotten(v)[..2]);
            && s.active.entries == [Version(v, 1), RangeVersion(2)]
            && s.frozen == [] && s.levels == s.manifest.levels == [[], [], [], []] && s.manifest.lastFlushed == 0
    ensures History(cfg, Forgotten(v)[..2]) == [Version(v, 1), RangeVersion(2)]
  {
    var ops := Forgotten(v);
    assert ops[..1] == [] + [ops[0]] && ops[..2] == ops[..1] + [ops[1]];
    assert Run(cfg, []) == Init() && History(cfg, []) == [];
    RunSnoc(cfg, [], ops[0]);
    PutStep(cfg, Init(), v);
    RunSnoc(cfg, ops[..1], ops[1]);
    var s1 := Run(cfg, ops[..1]);
    assert s1.active.entries == [Version(v, 1)] && s1.nextSeqno == 2;
    RangeStep(cfg, s1);
    hide Run, History, Step, Logged;
    KeysApart();
    assert SortedRuns.Insert([], RangeVersion(2)) == [RangeVersion(2)] && [Version(v, 1)][1..] == [];
    assert SortedRuns.Insert([Version(v, 1)], RangeVersion(2)) == [Version(v, 1), RangeVersion(2)];
  }

  lemma RangeFlushed(cfg: EngineConfig, v: Bytes) returns (t: Table)
    requires cfg.compaction.l0Stop > 0 && cfg.compaction.l0Trigger > 0 && cfg.maxFrozen > 0
    ensures var s := Run(cfg, Forgotten(v));
            s.active == EmptyMemtable(s.active.nextSeqno) && s.frozen == [] && s.levels == [[t], [], [], []]
    ensures t == WriteTable(cfg.compaction.sst, t.id, [Version(v, 1), RangeVersion(2)], 0)
    ensures History(cfg, Forgotten(v)) == [Version(v, 1), RangeVersion(2)]
  {
    var ops := Forgotten(v);
    RangeBuffered(cfg, v);
    assert ops[..3] == ops[..2] + [ops[2]] && ops == ops[..3] + [ops[3]];
    RunSnoc(cfg, ops[..2], ops[2]);
    RunSnoc(cfg, ops[..3], ops[3]);
    var s2, s3 := Run(cfg, ops[..2]), Run(cfg, ops[..3]);
    hide Run, History;
    FreezeFirst(cfg, s2);
    t := FlushFirst(cfg, s3);
  }

  lemma OneVersionEach(cfg: EngineConfig, s: State, t: Table, v: Bytes)
    requires s.levels == [[t], [], [], []] && t == WriteTable(cfg.compaction.sst, t.id, [Version(v, 1), RangeVersion(2)], 0)
    ensures !Obscured(s, KEY)
  {
    var es := [Version(v, 1), RangeVersion(2)];
    KeysApart();
    hide WriteTable;
    WrittenTable(cfg.compaction.sst, t.id, es, 0);
    DistinctKeysNeverSplit(cfg.compaction.sst, t, KEY);
  }

  lemma RangeCoversKey(v: Bytes)
    ensures var log := [Version(v, 1), RangeVersion(2)];
            Newest(log, KEY) == Some(Version(v, 1)) && DeletedByRange(log, KEY, 1)
  {
    var log := [Version(v, 1), RangeVersion(2)];
    KeysApart();
    hide Lt;
    assert log[..1] == [Version(v, 1)] && [Version(v, 1)][..0] == [];
    assert Lt([2], [3]) by {
      LtByHead(2, 3);
    }
    assert [RANGE_TOMBSTONE_PREFIX, 2][1..] == [2];
    assert TombstoneOf(RangeVersion(2)) == RangeTombstone([1], [2], [3], 2);
    assert log[1] in log && Hides(TombstoneOf(log[1]), RecordId(KEY), ItemKey(KEY), 1);
  }

  lemma LtByHead(a: byte, b: byte)
    requires a < b
    ensures Lt([a], [b])
  {
  }

  /** A run whose read returns an item that a later range delete covers, since the delete is flushed. */
  lemma {:induction false} FlushedRangeDeleteIsLost(cfg: EngineConfig, v: Bytes)
    requires cfg.compaction.l0Stop > 0 && cfg.compaction.l0Trigger > 0 && cfg.maxFrozen > 0
    ensures var s, log := Run(cfg, Forgotten(v)), History(cfg, Forgotten(v));
            && Newest(log, KEY) == Some(Version(v, 1)) && DeletedByRange(log, KEY, 1)
            && IdealRead(log, KEY) == None
            && PointRead(cfg, s, KEY) == Some(Version(v, 1))
  {
    hide Run, History, PointRead, Obscured, DeletedByRange, Forgotten, Newest, WriteTable;
    var t := RangeFlushed(cfg, v);
    OneVersionEach(cfg, Run(cfg, Forgotten(v)), t, v);
    RangeCoversKey(v);
    FlushedRangeDeletesAreForgotten(cfg, Forgotten(v), KEY);
  }
}
