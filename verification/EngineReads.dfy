/** Point reads against the history of writes. */
module EngineReads {
  import opened Wrappers
  import opened ByteStrings
  import opened CompositeKeys
  import opened Entries
  import opened Tables
  import opened Manifests
  import opened Compaction
  import opened RangeTombstones
  import opened LevelInvariants
  import opened Engine
  import opened EngineInvariant
  import T = Tiers
  import BloomFilters
  import SortedRuns

  // --- What the levels answer ---

  /** Everything stored in the levels. */
  ghost function Stored(levels: Levels): seq<Entry> {
    Flatten(ContentsOf(levels[0] + levels[1] + levels[2] + levels[3]))
  }

  lemma StoredMember(levels: Levels, e: Entry)
    ensures e in Stored(levels) <==> exists l :: 0 <= l < LEVELS && e in T.Versions(levels[l])
  {
    var all := levels[0] + levels[1] + levels[2] + levels[3];
    HoldsContents(all, e);
    if e in Stored(levels) {
      var t :| t in all && e in t.Contents();
      var l := if t in levels[0] then 0 else if t in levels[1] then 1 else if t in levels[2] then 2 else 3;
      assert t in levels[l];
      assert e in T.Versions(levels[l]);
    }
    if exists l :: 0 <= l < LEVELS && e in T.Versions(levels[l]) {
      var l :| 0 <= l < LEVELS && e in T.Versions(levels[l]);
      var t :| t in levels[l] && e in t.Contents();
      assert l == 0 || l == 1 || l == 2 || l == 3;
      assert t in all;
    }
  }

  lemma GetAnswers(sst: SstConfig, t: Table, k: Bytes)
    ensures Get(sst, t, k).Some? ==> Get(sst, t, k).value in t.Contents() && Get(sst, t, k).value.key == k
  {
    var n := BlocksUpTo(t.blocks, k);
    if n > 0 {
      var e := Newest(t.blocks[n - 1], k);
      if e.Some? {
        FlattenMember(t.blocks, e.value);
      }
    }
  }

  /** Answers come from the tables of their level. */
  lemma {:induction false} AnswersAreStored(sst: SstConfig, ts: seq<Table>, overlapping: bool, k: Bytes)
    ensures forall e :: e in LevelAnswers(sst, ts, overlapping, k) ==> e.key == k && e in T.Versions(ts)
  {
    if overlapping {
      if ts != [] {
        AnswersAreStored(sst, ts[1..], overlapping, k);
        GetAnswers(sst, ts[0], k);
        T.VersionsUnion(ts, [ts[0]], ts[1..]);
        assert forall e :: e in ts[0].Contents() ==> e in T.Versions([ts[0]]);
      }
    } else {
      var t := FindTable(ts, k);
      if t.Some? {
        FindTableMember(ts, k);
        GetAnswers(sst, t.value, k);
      }
    }
  }

  lemma {:induction false} FindTableMember(ts: seq<Table>, k: Bytes)
    ensures FindTable(ts, k).Some? ==> FindTable(ts, k).value in ts
  {
    if ts != [] {
      FindTableMember(ts[1..], k);
    }
  }

  /** An L0 table answers exactly with what its own lookup finds. */
  lemma {:induction false} L0Answers(sst: SstConfig, ts: seq<Table>, k: Bytes)
    ensures forall t :: t in ts && Get(sst, t, k).Some? ==> Get(sst, t, k).value in LevelAnswers(sst, ts, true, k)
    ensures forall e :: e in LevelAnswers(sst, ts, true, k) ==> exists t :: t in ts && Get(sst, t, k) == Some(e)
  {
    if ts != [] {
      L0Answers(sst, ts[1..], k);
      hide Get;
      var rest := LevelAnswers(sst, ts[1..], true, k);
      assert Get(sst, ts[0], k).Some? ==> BloomFilters.MaybeContains(sst.hash, ts[0].filter, RecordId(k)) by {
        GetNeedsFilter(sst, ts[0], k);
      }
      forall e | e in LevelAnswers(sst, ts, true, k)
        ensures exists t :: t in ts && Get(sst, t, k) == Some(e)
      {
        if e in rest {
          var t :| t in ts[1..] && Get(sst, t, k) == Some(e);
          assert t in ts;
        } else {
          assert ts[0] in ts;
        }
      }
    }
  }

  lemma GetNeedsFilter(sst: SstConfig, t: Table, k: Bytes)
    ensures Get(sst, t, k).Some? ==> BloomFilters.MaybeContains(sst.hash, t.filter, RecordId(k))
  {
  }

  /** A deeper level answers with the newest version of the key in it. */
  lemma DeepAnswers(cfg: Config, levels: Levels, l: nat, k: Bytes, e: Entry)
    requires ValidLevels(cfg, levels) && 1 <= l < LEVELS
    requires e in T.Versions(levels[l]) && e.key == k
    ensures e in LevelAnswers(cfg.sst, levels[l], false, k)
  {
    var t :| t in levels[l] && e in t.Contents();
    assert GoodTable(cfg, l, t);
    KeyInRange(cfg.sst, t, e);
    FindTableUnique(levels[l], k);
    DistinctKeysNeverSplit(cfg.sst, t, k);
    GetIsNewestIffNotSplit(cfg.sst, t, k);
    OneVersionPerKey(t.Contents(), e, Newest(t.Contents(), k).value);
  }

  lemma OneVersionPerKey(es: seq<Entry>, e: Entry, f: Entry)
    requires KeysIncreasing(es) && e in es && f in es && e.key == f.key
    ensures e == f
  {
    LtIsStrictTotalOrder();
    var i :| 0 <= i < |es| && es[i] == e;
    var j :| 0 <= j < |es| && es[j] == f;
    assert i == j;
  }

  /** The newest stored version of `k` sits in an L0 table whose lookup cannot see it. */
  ghost predicate HiddenBySplit(levels: Levels, k: Bytes) {
    var best := Newest(Stored(levels), k);
    best.Some? && exists t :: t in levels[0] && Splits(t, k) && Newest(t.Contents(), k) == best
  }

  lemma AnswersMember(sst: SstConfig, levels: Levels, k: Bytes, e: Entry)
    ensures e in Answers(sst, levels, k) <==>
            || e in LevelAnswers(sst, levels[0], true, k)
            || e in LevelAnswers(sst, levels[1], false, k)
            || e in LevelAnswers(sst, levels[2], false, k)
            || e in LevelAnswers(sst, levels[3], false, k)
  {
  }

  lemma AllAnswersStored(sst: SstConfig, levels: Levels, k: Bytes)
    ensures forall e :: e in Answers(sst, levels, k) ==> e.key == k && e in Stored(levels)
  {
    forall e | e in Answers(sst, levels, k)
      ensures e.key == k && e in Stored(levels)
    {
      AnswersMember(sst, levels, k, e);
      AnswersAreStored(sst, levels[0], true, k);
      AnswersAreStored(sst, levels[1], false, k);
      AnswersAreStored(sst, levels[2], false, k);
      AnswersAreStored(sst, levels[3], false, k);
      StoredMember(levels, e);
    }
  }

  ghost predicate OneEntryPerSeqno(es: seq<Entry>) {
    forall e, f :: e in es && f in es && e.seqno == f.seqno ==> e == f
  }

  /** The search over all levels finds the newest stored version exactly when that version is not
      hidden by a block boundary inside an L0 table. */
  lemma LevelsAnswerIff(cfg: EngineConfig, levels: Levels, k: Bytes)
    requires ValidLevels(cfg.compaction, levels) && L0Distinct(levels[0])
    requires T.Newer(T.Versions(levels[0]), T.Versions(levels[1]))
    requires T.Newer(T.Versions(levels[0]), T.Versions(levels[2]))
    requires T.Newer(T.Versions(levels[0]), T.Versions(levels[3]))
    requires OneEntryPerSeqno(Stored(levels))
    ensures Newest(Answers(cfg.compaction.sst, levels, k), k) == Newest(Stored(levels), k) <==> !HiddenBySplit(levels, k)
  {
    var sst := cfg.compaction.sst;
    var answers, best := Answers(sst, levels, k), Newest(Stored(levels), k);
    AllAnswersStored(sst, levels, k);
    if best.Some? {
      var e := best.value;
      BestIsAnswered(cfg, levels, k, e);
      assert e in answers ==> Newest(answers, k).Some? && Newest(answers, k).value.seqno == e.seqno;
      assert Newest(answers, k) == best <==> e in answers;
    }
  }

  lemma BestIsAnswered(cfg: EngineConfig, levels: Levels, k: Bytes, e: Entry)
    requires ValidLevels(cfg.compaction, levels) && L0Distinct(levels[0])
    requires T.Newer(T.Versions(levels[0]), T.Versions(levels[1]))
    requires T.Newer(T.Versions(levels[0]), T.Versions(levels[2]))
    requires T.Newer(T.Versions(levels[0]), T.Versions(levels[3]))
    requires OneEntryPerSeqno(Stored(levels))
    requires Newest(Stored(levels), k) == Some(e)
    ensures e in Answers(cfg.compaction.sst, levels, k) <==> !HiddenBySplit(levels, k)
  {
    var sst := cfg.compaction.sst;
    AnswersMember(sst, levels, k, e);
    StoredMember(levels, e);
    var l :| 0 <= l < LEVELS && e in T.Versions(levels[l]);
    if l > 0 {
      DeepAnswers(cfg.compaction, levels, l, k, e);
      assert l == 1 || l == 2 || l == 3;
      assert e !in T.Versions(levels[0]);
      assert !HiddenBySplit(levels, k);
    } else {
      forall m | 1 <= m < LEVELS
        ensures e !in T.Versions(levels[m])
      {
        assert m == 1 || m == 2 || m == 3;
      }
      AnswersAreStored(sst, levels[1], false, k);
      AnswersAreStored(sst, levels[2], false, k);
      AnswersAreStored(sst, levels[3], false, k);
      L0BestIff(cfg, levels, k, e);
    }
  }

  lemma L0BestIff(cfg: EngineConfig, levels: Levels, k: Bytes, e: Entry)
    requires ValidLevels(cfg.compaction, levels) && L0Distinct(levels[0])
    requires OneEntryPerSeqno(Stored(levels))
    requires Newest(Stored(levels), k) == Some(e) && e in T.Versions(levels[0])
    ensures e in LevelAnswers(cfg.compaction.sst, levels[0], true, k) <==> !HiddenBySplit(levels, k)
  {
    var sst := cfg.compaction.sst;
    var t :| t in levels[0] && e in t.Contents();
    assert GoodTable(cfg.compaction, 0, t);
    TableBest(levels, t, k, e);
    GetIsNewestIffNotSplit(sst, t, k);
    L0Answers(sst, levels[0], k);
    hide Get, LevelAnswers, Splits, Stored, ValidLevels;
    if e in LevelAnswers(sst, levels[0], true, k) {
      var s :| s in levels[0] && Get(sst, s, k) == Some(e);
      GetAnswers(sst, s, k);
      assert s == t;
    }
    assert forall s :: s in levels[0] && Newest(s.Contents(), k) == Some(e) ==> s == t;
  }

  lemma TableBest(levels: Levels, t: Table, k: Bytes, e: Entry)
    requires OneEntryPerSeqno(Stored(levels)) && Newest(Stored(levels), k) == Some(e)
    requires t in levels[0] && e in t.Contents()
    ensures Newest(t.Contents(), k) == Some(e)
  {
    var n := Newest(t.Contents(), k).value;
    assert n in T.Versions(levels[0]) && e in T.Versions(levels[0]);
    StoredMember(levels, n);
    StoredMember(levels, e);
  }

  // --- What the memtables answer ---

  ghost predicate Buffered(mts: seq<Memtable>, k: Bytes) {
    exists i :: 0 <= i < |mts| && HasEntry(mts[i], k)
  }

  ghost predicate HasEntry(mt: Memtable, k: Bytes) {
    exists e :: e in mt.entries && e.key == k
  }

  lemma {:induction false} NothingBuffered(mts: seq<Memtable>, k: Bytes)
    requires !Buffered(mts, k)
    ensures ListGet(mts, k) == None
  {
    if mts != [] {
      assert !HasEntry(mts[0], k);
      var _ := SortedRuns.LookupFirst(mts[0].entries, k);
      assert forall i :: 0 <= i < |mts[1..]| ==> mts[1..][i] == mts[i + 1];
      NothingBuffered(mts[1..], k);
    }
  }

  /** The newest memtable that knows the key, and its newest version there. */
  lemma {:induction false} FirstBuffered(mts: seq<Memtable>, k: Bytes) returns (i: nat, e: Entry)
    requires Buffered(mts, k) && forall j :: 0 <= j < |mts| ==> GoodMemtable(mts[j])
    ensures i < |mts| && e in mts[i].entries && e.key == k && Newest(mts[i].entries, k) == Some(e)
    ensures forall j :: 0 <= j < i ==> !HasEntry(mts[j], k)
    ensures if Covers(mts[i].tombstones, RecordId(k), ItemKey(k), e.seqno) then ListGet(mts, k) == ListGet(mts[i + 1..], k) else ListGet(mts, k) == Some(e)
  {
    hide Newest, SortedRuns.Lookup, Covers, RecordId, ItemKey, StrictlySorted;
    var l := SortedRuns.LookupFirst(mts[0].entries, k);
    SortedRuns.LookupIsNewest(mts[0].entries, k);
    if l.Some? {
      i, e := 0, l.value;
    } else {
      assert !HasEntry(mts[0], k);
      assert forall j :: 0 <= j < |mts[1..]| ==> mts[1..][j] == mts[j + 1];
      assert Buffered(mts[1..], k) by {
        var j :| 0 <= j < |mts| && HasEntry(mts[j], k);
        assert mts[1..][j - 1] == mts[j];
      }
      i, e := FirstBuffered(mts[1..], k);
      assert mts[1..][i + 1..] == mts[i + 2..];
      i := i + 1;
    }
  }

  lemma {:induction false} ListGetMember(mts: seq<Memtable>, k: Bytes)
    ensures ListGet(mts, k).Some? ==> exists i :: 0 <= i < |mts| && ListGet(mts, k).value in mts[i].entries && ListGet(mts, k).value.key == k
  {
    if mts != [] {
      var l := SortedRuns.LookupFirst(mts[0].entries, k);
      ListGetMember(mts[1..], k);
      if MemtableGet(mts[0], k).None? && ListGet(mts, k).Some? {
        var i :| 0 <= i < |mts[1..]| && ListGet(mts[1..], k).value in mts[1..][i].entries && ListGet(mts[1..], k).value.key == k;
        assert mts[1..][i] == mts[i + 1];
      }
    }
  }

  // --- The whole read ---

  /** The reading the history prescribes: the last write to the key, unless it deletes the key or a
      later range delete that is still in a memtable covers it. */
  ghost function ReadSpec(s: State, log: seq<Entry>, k: Bytes): Option<Entry> {
    var last := Newest(log, k);
    if last.None? then None else Visible(s, k, last.value)
  }

  /** The one case in which a read can miss the last write. */
  ghost predicate Obscured(s: State, k: Bytes) {
    !Buffered(s.Memtables(), k) && HiddenBySplit(s.levels, k)
  }

  lemma LevelFacts(cfg: EngineConfig, s: State, log: seq<Entry>)
    requires Inv(cfg, s, log)
    ensures forall l :: 1 <= l < LEVELS ==> T.Newer(T.Versions(s.levels[0]), T.Versions(s.levels[l]))
    ensures forall e :: e in Stored(s.levels) ==> e in log
    ensures OneEntryPerSeqno(Stored(s.levels))
  {
    var n := |s.Memtables()|;
    hide T.Versions;
    forall l | 0 <= l < LEVELS
      ensures TiersOf(s)[n + l] == T.Versions(s.levels[l])
    {
    }
    forall l | 1 <= l < LEVELS
      ensures T.Newer(T.Versions(s.levels[0]), T.Versions(s.levels[l]))
    {
      assert T.Newer(TiersOf(s)[n], TiersOf(s)[n + l]);
    }
    LevelsAreLogged(s, log);
    forall e | e in Stored(s.levels)
      ensures e in log
    {
      StoredMember(s.levels, e);
    }
    forall e, f | e in Stored(s.levels) && f in Stored(s.levels) && e.seqno == f.seqno
      ensures e == f
    {
      T.SameSeqnoInLog(log, e, f);
    }
  }

  /** The tiers of a state: its memtables, then its four levels. */
  ghost predicate Shape(tiers: seq<T.Tier>, mts: seq<Memtable>, levels: Levels) {
    && |tiers| == |mts| + LEVELS
    && (forall i :: 0 <= i < |mts| ==> tiers[i] == TierOf(mts[i]))
    && (forall i :: |mts| <= i < |tiers| ==> tiers[i] == T.Versions(levels[i - |mts|]))
  }

  lemma TiersHaveShape(s: State)
    ensures Shape(TiersOf(s), s.Memtables(), s.levels)
  {
    hide T.Versions, TierOf;
  }

  lemma StoredVersions(tiers: seq<T.Tier>, mts: seq<Memtable>, levels: Levels, k: Bytes)
    requires Shape(tiers, mts, levels) && !Buffered(mts, k)
    ensures forall i, e: Entry :: 0 <= i < |tiers| && e in tiers[i] && e.key == k ==> e in Stored(levels)
    ensures forall e :: e in Stored(levels) ==> T.InSomeTier(tiers, e)
  {
    forall i, e: Entry | 0 <= i < |tiers| && e in tiers[i] && e.key == k
      ensures e in Stored(levels)
    {
      if i < |mts| {
        assert !HasEntry(mts[i], k);
      } else {
        assert e in T.Versions(levels[i - |mts|]);
        StoredMember(levels, e);
      }
    }
    forall e | e in Stored(levels)
      ensures T.InSomeTier(tiers, e)
    {
      StoredMember(levels, e);
      var l :| 0 <= l < LEVELS && e in T.Versions(levels[l]);
      assert e in tiers[|mts| + l];
    }
  }

  /** Without a buffered version, the levels hold the last write, or nothing of a deleted key. */
  lemma DiskHoldsLast(cfg: EngineConfig, s: State, log: seq<Entry>, k: Bytes)
    requires Inv(cfg, s, log) && !Buffered(s.Memtables(), k)
    ensures Newest(Stored(s.levels), k).Some? ==> Newest(log, k) == Newest(Stored(s.levels), k)
    ensures Newest(Stored(s.levels), k).None? ==> Newest(log, k).None? || Newest(log, k).value.IsTombstone()
  {
    var tiers := TiersOf(s);
    LevelFacts(cfg, s, log);
    TiersHaveShape(s);
    StoredVersions(tiers, s.Memtables(), s.levels, k);
    hide Stored, TiersOf, GoodDisk, GoodMemtables;
    StoredHoldsLast(tiers, log, Stored(s.levels), k);
  }

  lemma StoredHoldsLast(tiers: seq<T.Tier>, log: seq<Entry>, stored: seq<Entry>, k: Bytes)
    requires T.LogOrdered(log) && T.Faithful(tiers, log)
    requires forall e :: e in stored ==> e in log && T.InSomeTier(tiers, e)
    requires forall i, e: Entry :: 0 <= i < |tiers| && e in tiers[i] && e.key == k ==> e in stored
    ensures Newest(stored, k).Some? ==> Newest(log, k) == Newest(stored, k)
    ensures Newest(stored, k).None? ==> Newest(log, k).None? || Newest(log, k).value.IsTombstone()
  {
    assert T.Shown(tiers, log, k);
    var best := Newest(stored, k);
    if best.Some? {
      var i :| 0 <= i < |tiers| && best.value in tiers[i];
      assert T.HasVersion(tiers[i], k);
      var last := Newest(log, k).value;
      var j :| 0 <= j < |tiers| && last in tiers[j];
      T.SameSeqnoInLog(log, last, best.value);
    }
  }

  /** With a buffered version, the newest one is the last write, and everything else is older. */
  lemma BufferHoldsLast(cfg: EngineConfig, s: State, log: seq<Entry>, k: Bytes, i: nat, e: Entry)
    requires Inv(cfg, s, log) && i < |s.Memtables()|
    requires Newest(s.Memtables()[i].entries, k) == Some(e)
    requires forall j :: 0 <= j < i ==> !HasEntry(s.Memtables()[j], k)
    ensures Newest(log, k) == Some(e)
    ensures forall j, f :: i < j < |TiersOf(s)| && f in TiersOf(s)[j] && f.key == k ==> f.seqno < e.seqno
  {
    var tiers := TiersOf(s);
    assert tiers[i] == TierOf(s.Memtables()[i]);
    forall j | 0 <= j < i
      ensures !T.HasVersion(tiers[j], k)
    {
      assert tiers[j] == TierOf(s.Memtables()[j]);
      assert !HasEntry(s.Memtables()[j], k);
    }
    T.FirstTierWins(tiers, log, k, i, e);
    forall j, f: Entry | i < j < |tiers| && f in tiers[j] && f.key == k
      ensures f.seqno < e.seqno
    {
      assert T.Newer(tiers[i], tiers[j]);
    }
  }

  lemma CoveredStaysCovered(ts: seq<RangeTombstone>, record: Bytes, item: Bytes, newer: nat, older: nat)
    requires Covers(ts, record, item, newer) && older <= newer
    ensures Covers(ts, record, item, older)
  {
    var i :| 0 <= i < |ts| && Hides(ts[i], record, item, newer);
    assert Hides(ts[i], record, item, older);
  }

  /** When a memtable's own tombstone hides its newest version, whatever older version turns up
      behind it is hidden too. */
  lemma HiddenBehind(cfg: EngineConfig, s: State, log: seq<Entry>, k: Bytes, i: nat, e: Entry)
    requires Inv(cfg, s, log) && i < |s.Memtables()|
    requires Newest(s.Memtables()[i].entries, k) == Some(e)
    requires forall j :: 0 <= j < i ==> !HasEntry(s.Memtables()[j], k)
    requires Covers(s.Memtables()[i].tombstones, RecordId(k), ItemKey(k), e.seqno)
    requires ListGet(s.Memtables(), k) == ListGet(s.Memtables()[i + 1..], k)
    ensures PointRead(cfg, s, k) == None
  {
    BufferHoldsLast(cfg, s, log, k, i, e);
    TiersHaveShape(s);
    OlderCandidate(cfg, s, k, i, e);
    var c := Candidate(cfg, s, k);
    hide Candidate, Inv, TiersOf;
    if c.Some? {
      CoveredStaysCovered(s.Memtables()[i].tombstones, RecordId(k), ItemKey(k), e.seqno, c.value.seqno);
    }
  }

  lemma OlderCandidate(cfg: EngineConfig, s: State, k: Bytes, i: nat, e: Entry)
    requires i < |s.Memtables()| && Shape(TiersOf(s), s.Memtables(), s.levels)
    requires forall j, f: Entry :: i < j < |TiersOf(s)| && f in TiersOf(s)[j] && f.key == k ==> f.seqno < e.seqno
    requires ListGet(s.Memtables(), k) == ListGet(s.Memtables()[i + 1..], k)
    ensures Candidate(cfg, s, k).Some? ==> Candidate(cfg, s, k).value.seqno < e.seqno
  {
    var mts, tiers, m := s.Memtables(), TiersOf(s), ListGet(s.Memtables(), k);
    hide TiersOf;
    if m.Some? {
      ListGetMember(mts[i + 1..], k);
      var j :| 0 <= j < |mts[i + 1..]| && m.value in mts[i + 1..][j].entries && m.value.key == k;
      assert mts[i + 1..][j] == mts[i + 1 + j];
      assert m.value in tiers[i + 1 + j];
    } else {
      var f := Candidate(cfg, s, k);
      AllAnswersStored(cfg.compaction.sst, s.levels, k);
      if f.Some? {
        StoredMember(s.levels, f.value);
        var l :| 0 <= l < LEVELS && f.value in T.Versions(s.levels[l]);
        assert f.value in tiers[|mts| + l];
      }
    }
  }

  /** A point read returns what the history prescribes, unless the key is obscured. */
  lemma ReadIsLastWrite(cfg: EngineConfig, s: State, log: seq<Entry>, k: Bytes)
    requires Inv(cfg, s, log) && !Obscured(s, k)
    ensures PointRead(cfg, s, k) == ReadSpec(s, log, k)
  {
    var mts := s.Memtables();
    if Buffered(mts, k) {
      var i, e := FirstBuffered(mts, k);
      BufferHoldsLast(cfg, s, log, k, i, e);
      if Covers(mts[i].tombstones, RecordId(k), ItemKey(k), e.seqno) {
        HiddenBehind(cfg, s, log, k, i, e);
      }
    } else {
      NothingBuffered(mts, k);
      LevelFacts(cfg, s, log);
      LevelsAnswerIff(cfg, s.levels, k);
      DiskHoldsLast(cfg, s, log, k);
    }
  }

  /** A version a read does not return: there is none, it is a deletion, or a buffered range delete
      covers it. */
  ghost predicate Concealed(s: State, k: Bytes, e: Option<Entry>) {
    e.None? || e.value.IsTombstone() || ListCovers(s.Memtables(), RecordId(k), ItemKey(k), e.value.seqno)
  }

  /** Behind a block boundary the search settles on another version than the last write. */
  lemma ObscuredCandidate(cfg: EngineConfig, s: State, log: seq<Entry>, k: Bytes)
    requires Inv(cfg, s, log) && Obscured(s, k)
    ensures Newest(log, k).Some? && Candidate(cfg, s, k) != Newest(log, k)
  {
    NothingBuffered(s.Memtables(), k);
    LevelFacts(cfg, s, log);
    LevelsAnswerIff(cfg, s.levels, k);
    DiskHoldsLast(cfg, s, log, k);
  }

  /** Exactly when a point read returns what the history prescribes: the key is not obscured, or
      neither the last write nor the version found instead is to be seen. */
  lemma ReadIsLastWriteIff(cfg: EngineConfig, s: State, log: seq<Entry>, k: Bytes)
    requires Inv(cfg, s, log)
    ensures PointRead(cfg, s, k) == ReadSpec(s, log, k) <==>
              (Obscured(s, k) ==> Concealed(s, k, Newest(log, k)) && Concealed(s, k, Candidate(cfg, s, k)))
  {
    hide Inv, Obscured, Candidate, Newest, ListCovers;
    if Obscured(s, k) {
      ObscuredCandidate(cfg, s, log, k);
    } else {
      ReadIsLastWrite(cfg, s, log, k);
    }
  }

  /** LSM refinement: in every run from an empty engine, whatever is frozen, flushed and compacted
      on the way, a point read returns the last write to its key, and misses it exactly when a block
      boundary hides it behind another version and one of the two is to be seen. */
  lemma {:induction false} EveryReadIsLastWrite(cfg: EngineConfig, ops: seq<Op>, k: Bytes)
    ensures var s, log := Run(cfg, ops), History(cfg, ops);
            PointRead(cfg, s, k) == ReadSpec(s, log, k) <==>
              (Obscured(s, k) ==> Concealed(s, k, Newest(log, k)) && Concealed(s, k, Candidate(cfg, s, k)))
  {
    RunKeeps(cfg, ops);
    ReadIsLastWriteIff(cfg, Run(cfg, ops), History(cfg, ops), k);
  }
}
