/** The first key of a range read: it is answered exactly as a point read answers it. */
module RangeStarts {
  import opened Wrappers
  import opened ByteStrings
  import opened CompositeKeys
  import opened Entries
  import opened Tables
  import opened TableScans
  import opened Manifests
  import opened RangeTombstones
  import opened MergeIteration
  import opened LevelInvariants
  import opened Engine
  import opened EngineInvariant
  import opened EngineReads
  import opened EngineTheorems
  import opened RangeReads
  import opened RangeReadTheorems
  import opened PageLists
  import opened Pagination
  import opened RangeReadMeaning
  import T = Tiers
  import BloomFilters
  import SortedRuns

  // --- One table ---

  lemma LaterBlockIsAbove(cfg: SstConfig, t: Table, k: Bytes, j: nat, x: Entry)
    requires WellFormed(cfg, t) && j < |t.blocks| && x in t.blocks[j] && x.key == k
    ensures j < BlocksUpTo(t.blocks, k)
  {
    LaterBlocksAreAbove(cfg, t, k, j, x);
    LtIrreflexive(k);
  }

  /** A scan and a lookup look at the same block for the key they start at. */
  lemma {:induction false} ScanAtStart(cfg: SstConfig, t: Table, k: Bytes, to: Bytes, x: Entry)
    requires WellFormed(cfg, t) && Lt(k, to) && x.key == k
    ensures var n := BlocksUpTo(t.blocks, k);
            x in Scan(t, k, Some(to)) <==> n > 0 && x in t.blocks[n - 1]
  {
    hide Lt, Scan, Flatten, BlocksUpTo, WellFormed;
    var n, s := BlocksUpTo(t.blocks, k), StartBlock(t.blocks, k);
    var left := t.blocks[s..];
    ScanIsSuffix(cfg, t, k, Some(to));
    RangeMembers(Flatten(left), k, Some(to));
    FlattenMember(left, x);
    if x in Flatten(left) {
      var j :| 0 <= j < |left| && x in left[j];
      assert left[j] == t.blocks[s + j];
      LaterBlockIsAbove(cfg, t, k, s + j, x);
    }
    if n > 0 && x in t.blocks[n - 1] {
      assert left[0] == t.blocks[n - 1];
    }
  }

  lemma GetIsScanned(cfg: SstConfig, t: Table, k: Bytes, to: Bytes)
    requires WellFormed(cfg, t) && Lt(k, to) && Get(cfg, t, k).Some?
    ensures Get(cfg, t, k).value in Scan(t, k, Some(to)) && t.OverlapsRange(k, to)
  {
    hide WellFormed, Scan, Lt;
    LtIsStrictTotalOrder();
    ScanAtStart(cfg, t, k, to, Get(cfg, t, k).value);
    GetAnswers(cfg, t, k);
    KeyInRange(cfg, t, Get(cfg, t, k).value);
  }

  lemma ScannedIsGot(cfg: SstConfig, t: Table, k: Bytes, to: Bytes, x: Entry)
    requires WellFormed(cfg, t) && Lt(k, to) && x in Scan(t, k, Some(to)) && x.key == k
    ensures Get(cfg, t, k).Some? && x.seqno <= Get(cfg, t, k).value.seqno
  {
    hide Scan, Lt, Flatten;
    ScanAtStart(cfg, t, k, to, x);
    ScanMembers(cfg, t, k, Some(to));
    BloomFilters.NoFalseNegatives(cfg.hash, RecordsOf(t.Contents()), cfg.bitsPerKey, RecordId(k));
  }

  // --- All levels ---

  lemma LevelAnswersMember(cfg: EngineConfig, levels: Levels, l: nat, k: Bytes, a: Entry) returns (t: Table)
    requires ValidLevels(cfg.compaction, levels) && l < LEVELS && a in LevelAnswers(cfg.compaction.sst, levels[l], l == 0, k)
    ensures t in levels[l] && Get(cfg.compaction.sst, t, k) == Some(a)
  {
    hide Get, ValidLevels;
    if l == 0 {
      L0Answers(cfg.compaction.sst, levels[0], k);
      t :| t in levels[0] && Get(cfg.compaction.sst, t, k) == Some(a);
    } else {
      FindTableMember(levels[l], k);
      t := FindTable(levels[l], k).value;
    }
  }

  lemma LevelAnswersTable(cfg: EngineConfig, levels: Levels, l: nat, k: Bytes, t: Table)
    requires ValidLevels(cfg.compaction, levels) && l < LEVELS && t in levels[l] && Get(cfg.compaction.sst, t, k).Some?
    ensures Get(cfg.compaction.sst, t, k).value in LevelAnswers(cfg.compaction.sst, levels[l], l == 0, k)
  {
    var sst := cfg.compaction.sst;
    if l == 0 {
      L0Answers(sst, levels[0], k);
    } else {
      assert GoodTable(cfg.compaction, l, t);
      GetAnswers(sst, t, k);
      KeyInRange(sst, t, Get(sst, t, k).value);
      FindTableUnique(levels[l], k);
    }
  }

  lemma AnswersByLevel(sst: SstConfig, levels: Levels, k: Bytes, a: Entry)
    ensures a in Answers(sst, levels, k) <==> exists l :: 0 <= l < LEVELS && a in LevelAnswers(sst, levels[l], l == 0, k)
  {
    hide LevelAnswers;
    AnswersMember(sst, levels, k, a);
    if exists l :: 0 <= l < LEVELS && a in LevelAnswers(sst, levels[l], l == 0, k) {
      var l :| 0 <= l < LEVELS && a in LevelAnswers(sst, levels[l], l == 0, k);
      assert l == 0 || l == 1 || l == 2 || l == 3;
    }
    assert a in LevelAnswers(sst, levels[0], true, k) ==> a in LevelAnswers(sst, levels[0], 0 == 0, k);
    assert a in LevelAnswers(sst, levels[1], false, k) ==> a in LevelAnswers(sst, levels[1], 1 == 0, k);
    assert a in LevelAnswers(sst, levels[2], false, k) ==> a in LevelAnswers(sst, levels[2], 2 == 0, k);
    assert a in LevelAnswers(sst, levels[3], false, k) ==> a in LevelAnswers(sst, levels[3], 3 == 0, k);
  }

  /** What the search answers, the scans deliver ... */
  lemma AnswerIsFound(cfg: EngineConfig, levels: Levels, k: Bytes, to: Bytes, a: Entry)
    requires ValidLevels(cfg.compaction, levels) && Lt(k, to) && a in Answers(cfg.compaction.sst, levels, k)
    ensures Finds(levels, k, to, a) && a.key == k
  {
    hide Answers, LevelAnswers, Get, Scan, Lt;
    AnswersByLevel(cfg.compaction.sst, levels, k, a);
    var l :| 0 <= l < LEVELS && a in LevelAnswers(cfg.compaction.sst, levels[l], l == 0, k);
    var t := LevelAnswersMember(cfg, levels, l, k, a);
    assert GoodTable(cfg.compaction, l, t);
    GetIsScanned(cfg.compaction.sst, t, k, to);
    GetAnswers(cfg.compaction.sst, t, k);
    hide ValidLevels;
    assert TableFinds(t, k, to, a);
    assert LevelFinds(levels[l], k, to, a);
  }

  /** ... and of what the scans deliver, the search answers with something as new. */
  lemma FoundIsAnswered(cfg: EngineConfig, levels: Levels, k: Bytes, to: Bytes, x: Entry) returns (a: Entry)
    requires ValidLevels(cfg.compaction, levels) && Lt(k, to) && Finds(levels, k, to, x) && x.key == k
    ensures a in Answers(cfg.compaction.sst, levels, k) && a.key == k && x.seqno <= a.seqno
  {
    hide Answers, LevelAnswers, Get, Scan, Lt;
    var l :| 0 <= l < LEVELS && LevelFinds(levels[l], k, to, x);
    var t :| t in levels[l] && TableFinds(t, k, to, x);
    assert GoodTable(cfg.compaction, l, t);
    ScannedIsGot(cfg.compaction.sst, t, k, to, x);
    GetAnswers(cfg.compaction.sst, t, k);
    a := Get(cfg.compaction.sst, t, k).value;
    LevelAnswersTable(cfg, levels, l, k, t);
    AnswersByLevel(cfg.compaction.sst, levels, k, a);
  }

  // --- The memtables ---

  /** The first memtable that offers the key answers. */
  lemma {:induction false} ListGetOffers(mts: seq<Memtable>, k: Bytes) returns (i: nat)
    requires forall j :: 0 <= j < |mts| ==> StrictlySorted(mts[j].entries)
    ensures ListGet(mts, k).None? ==> forall x :: MemListOffers(mts, x) ==> x.key != k
    ensures ListGet(mts, k).Some? ==>
              && i < |mts| && ListGet(mts, k).value.key == k && MemOffers(mts[i], ListGet(mts, k).value)
              && forall j, x :: 0 <= j < i && MemOffers(mts[j], x) ==> x.key != k
  {
    hide MemOffers, StrictlySorted;
    i := 0;
    if mts != [] {
      OneMemtable(mts[0], k);
      if MemtableGet(mts[0], k).None? {
        hide MemtableGet;
        assert forall j :: 0 <= j < |mts[1..]| ==> mts[1..][j] == mts[j + 1];
        i := ListGetOffers(mts[1..], k);
        forall x | MemListOffers(mts, x) && x.key == k
          ensures MemListOffers(mts[1..], x)
        {
          var j :| 0 <= j < |mts| && MemOffers(mts[j], x);
          assert mts[j] == mts[1..][j - 1];
        }
        i := i + 1;
      }
    }
  }

  lemma OneMemtable(mt: Memtable, k: Bytes)
    requires StrictlySorted(mt.entries)
    ensures MemtableGet(mt, k).Some? ==> MemtableGet(mt, k).value.key == k && MemOffers(mt, MemtableGet(mt, k).value)
    ensures MemtableGet(mt, k).None? ==> forall x :: MemOffers(mt, x) ==> x.key != k
  {
    hide RecordId, ItemKey, Covers;
    SortedRuns.LookupIsNewest(mt.entries, k);
    var l := SortedRuns.Lookup(mt.entries, k);
    forall x | MemOffers(mt, x) && x.key == k
      ensures l == Some(x)
    {
      assert x.seqno == l.value.seqno;
      LtIrreflexive(k);
      var i :| 0 <= i < |mt.entries| && mt.entries[i] == x;
      var j :| 0 <= j < |mt.entries| && mt.entries[j] == l.value;
      assert i == j;
    }
  }

  lemma TiersOrdered(cfg: EngineConfig, s: State, log: seq<Entry>)
    requires Inv(cfg, s, log)
    ensures T.Ordered(TiersOf(s))
  {
  }

  /** An offer comes from a tier. */
  lemma OfferTier(s: State, f: Entry) returns (j: nat)
    requires Offered(s, f)
    ensures j < |TiersOf(s)| && f in TiersOf(s)[j]
    ensures j < |s.Memtables()| ==> MemOffers(s.Memtables()[j], f)
  {
    TiersHaveShape(s);
    hide TiersOf, TierOf;
    var mts := s.Memtables();
    if MemListOffers(mts, f) {
      j :| 0 <= j < |mts| && MemOffers(mts[j], f);
      InTier(mts[j], f);
    } else {
      var l, t :| 0 <= l < LEVELS && t in s.levels[l] && f in t.Contents();
      j := |mts| + l;
      assert f in T.Versions(s.levels[l]);
    }
  }

  lemma InTier(mt: Memtable, f: Entry)
    requires MemOffers(mt, f)
    ensures f in TierOf(mt)
  {
  }

  /** Whatever else is on offer for the key is older than what the memtables answer. */
  lemma BufferedIsNewest(cfg: EngineConfig, s: State, log: seq<Entry>, k: Bytes, f: Entry)
    requires Inv(cfg, s, log) && ListGet(s.Memtables(), k).Some? && Offered(s, f) && f.key == k
    ensures f.seqno <= ListGet(s.Memtables(), k).value.seqno
  {
    hide Inv, ListGet, StrictlySorted, MemOffers, TiersOf, TierOf, Offered;
    MemtablesSorted(cfg, s, log);
    TiersOrdered(cfg, s, log);
    TiersHaveShape(s);
    var mts, tiers := s.Memtables(), TiersOf(s);
    var i := ListGetOffers(mts, k);
    var e := ListGet(mts, k).value;
    InTier(mts[i], e);
    var j := OfferTier(s, f);
    if i < j {
      assert T.Newer(tiers[i], tiers[j]);
    } else if i == j {
      DominatesOffer(mts[i], e, f);
    }
  }

  lemma DominatesOffer(mt: Memtable, e: Entry, f: Entry)
    requires MemOffers(mt, e) && MemOffers(mt, f) && e.key == f.key
    ensures f.seqno <= e.seqno
  {
  }

  // --- The first key of a range ---

  lemma BufferedIsDelivered(cfg: EngineConfig, s: State, log: seq<Entry>, k: Bytes, to: Bytes)
    requires Inv(cfg, s, log) && Lt(k, to)
    ensures ListGet(s.Memtables(), k).Some? ==> ListGet(s.Memtables(), k).value in All(s, k, to) && ListGet(s.Memtables(), k).value.key == k
    ensures ListGet(s.Memtables(), k).None? ==> forall x :: x in MemSource(s.Memtables(), k, to) ==> x.key != k
  {
    hide Inv, Lt, MemSource, ScanEach, ListGet, Sources, Flatten, Finds, MemOffers, StrictlySorted;
    var mts, m := s.Memtables(), ListGet(s.Memtables(), k);
    MemtablesSorted(cfg, s, log);
    var i := ListGetOffers(mts, k);
    MemSourceIsNewest(mts, k, to);
    forall x | x in MemSource(mts, k, to)
      ensures MemListOffers(mts, x)
    {
      ScanEachMembers(mts, k, to, x);
    }
    if m.Some? {
      assert MemListOffers(mts, m.value);
      ScanEachMembers(mts, k, to, m.value);
      assert MergeIteration.HasKey(MemSource(mts, k, to), k);
      var g :| g in MemSource(mts, k, to) && g.key == k;
      assert Dominates(g, ScanEach(mts, k, to));
      BufferedIsNewest(cfg, s, log, k, g);
      OfferedUnique(cfg, s, log, g, m.value);
      SourcesMembers(s, k, to, g);
    }
  }

  /** The search settles on the newest version that a range begun at the key delivers. */
  lemma CandidateIsDelivered(cfg: EngineConfig, s: State, log: seq<Entry>, k: Bytes, to: Bytes)
    requires Inv(cfg, s, log) && Lt(k, to)
    ensures var c := Candidate(cfg, s, k);
            && (c.Some? ==> c.value in All(s, k, to) && c.value.key == k && Dominates(c.value, All(s, k, to)))
            && (c.None? ==> forall x :: x in All(s, k, to) ==> x.key != k)
  {
    hide Inv, Lt, MemSource, ListGet, Sources, Flatten, Finds, Answers, Newest, Offered;
    var m, c := ListGet(s.Memtables(), k), Candidate(cfg, s, k);
    BufferedIsDelivered(cfg, s, log, k, to);
    DiskIsValid(cfg, s, log);
    if m.None? && c.Some? {
      AnswerIsFound(cfg, s.levels, k, to, c.value);
      SourcesMembers(s, k, to, c.value);
    }
    forall x | x in All(s, k, to) && x.key == k
      ensures c.Some? && x.seqno <= c.value.seqno
    {
      AllIsOffered(cfg, s, log, k, to, x);
      if m.Some? {
        BufferedIsNewest(cfg, s, log, k, x);
      } else {
        SourcesMembers(s, k, to, x);
        var a := FoundIsAnswered(cfg, s.levels, k, to, x);
      }
    }
  }

  lemma MergedAtStart(cfg: EngineConfig, s: State, log: seq<Entry>, k: Bytes, to: Bytes, e: Entry)
    requires Inv(cfg, s, log) && Lt(k, to) && e.key == k
    ensures e in Merged(s, k, to) <==> Candidate(cfg, s, k) == Some(e)
  {
    hide Inv, Lt, Merged, All, Candidate, KeysIncreasing, Offered;
    var c := Candidate(cfg, s, k);
    CandidateIsDelivered(cfg, s, log, k, to);
    RangeReadTheorems.MergedIsNewest(cfg, s, log, k, to);
    if c.Some? {
      assert MergeIteration.HasKey(Merged(s, k, to), k);
      var g :| g in Merged(s, k, to) && g.key == k;
      assert Dominates(g, All(s, k, to));
      SameDelivered(cfg, s, log, k, to, g, c.value);
      if e in Merged(s, k, to) {
        assert Dominates(e, All(s, k, to));
        SameDelivered(cfg, s, log, k, to, e, c.value);
      }
    }
  }

  lemma SameDelivered(cfg: EngineConfig, s: State, log: seq<Entry>, k: Bytes, to: Bytes, e: Entry, f: Entry)
    requires Inv(cfg, s, log) && e in All(s, k, to) && f in All(s, k, to) && e.key == f.key
    requires Dominates(e, All(s, k, to)) && Dominates(f, All(s, k, to))
    ensures e == f
  {
    hide Inv, All, Offered;
    AllIsOffered(cfg, s, log, k, to, e);
    AllIsOffered(cfg, s, log, k, to, f);
    OfferedUnique(cfg, s, log, e, f);
  }

  lemma {:induction false} AllMemtablesCover(mts: seq<Memtable>, record: Bytes, item: Bytes, seqno: nat)
    ensures Covers(TombstonesOf(mts), record, item, seqno) <==> ListCovers(mts, record, item, seqno)
  {
    hide Hides;
    if mts != [] {
      var a, b := mts[0].tombstones, TombstonesOf(mts[1..]);
      AllMemtablesCover(mts[1..], record, item, seqno);
      assert forall i :: 0 <= i < |mts[1..]| ==> mts[1..][i] == mts[i + 1];
      CoversEither(a, b, record, item, seqno);
      hide Covers;
      if ListCovers(mts, record, item, seqno) {
        var i :| 0 <= i < |mts| && Covers(mts[i].tombstones, record, item, seqno);
        assert i > 0 ==> mts[i] == mts[1..][i - 1];
      }
    }
  }

  /** A reading shows its first entry by the tombstones it starts with. */
  lemma ReadsFirst(es: seq<Entry>, record: Bytes, ts: seq<RangeTombstone>, e: Entry)
    requires KeysIncreasing(es) && forall x :: x in es ==> Le(e.key, x.key)
    ensures e in ReadOn(es, record, ts) <==> e in es && Shows(e, record, ts)
  {
    LtIsStrictTotalOrder();
    hide Lt, Shows, TombstoneIn, IsValue;
    if es != [] {
      ReadOnMembers(es[1..], record, ts + TombstoneIn(es[0], record));
      TailMembers(es);
      assert es[0] in es;
      assert forall j :: 0 < j < |es| ==> Lt(es[0].key, es[j].key);
    }
  }

  /** A range read answers for the key it starts at exactly as a point read does, stale versions behind
      block boundaries and buffered range deletes included. */
  lemma {:induction false} StartKeyIsPointRead(cfg: EngineConfig, s: State, log: seq<Entry>, to: Bytes, e: Entry)
    requires Inv(cfg, s, log) && Lt(e.key, to)
    ensures e in Unlimited(s, RecordId(e.key), e.key, to) <==> PointRead(cfg, s, e.key) == Some(e)
  {
    hide Inv, Lt, Merged, Candidate, ReadOn, TombstonesOf, ListCovers, Covers, RecordId, ItemKey, KeysIncreasing;
    var k := e.key;
    MergedKeysIncreasing(cfg, s, log, k, to);
    MergedStarts(cfg, s, log, k, to);
    ReadsFirst(Merged(s, k, to), RecordId(k), TombstonesOf(s.Memtables()), e);
    MergedAtStart(cfg, s, log, k, to, e);
    AllMemtablesCover(s.Memtables(), RecordId(k), ItemKey(k), e.seqno);
  }

  /** Range reads return the map, the start key included: in every run of puts and point deletes the
      unlimited read holds a key exactly when the map of the history does, with that value, unless the
      key is the first of the range and a point read could not see its last write either. */
  lemma {:induction false} RangeReadIsMapFromStart(cfg: EngineConfig, ops: seq<Op>, from: Bytes, to: Bytes, e: Entry)
    requires NoRangeDeletes(ops) && Le(from, e.key) && Lt(e.key, to)
    ensures var s, log := Run(cfg, ops), History(cfg, ops);
            (e.key == from ==> (Obscured(s, from) ==> Concealed(s, from, Newest(log, from)) && Concealed(s, from, Candidate(cfg, s, from)))) ==>
              (e in Unlimited(s, RecordId(e.key), from, to) <==> Newest(log, e.key) == Some(e) && e.kind == Put)
  {
    var s, log := Run(cfg, ops), History(cfg, ops);
    RunKeeps(cfg, ops);
    hide Run, History, Inv, Lt, Unlimited, Newest, PointRead, Obscured, Concealed, Candidate, RecordId, ItemKey, NoRangeDeletes;
    if e.key == from {
      StartKeyIsPointRead(cfg, s, log, to, e);
      EveryReadIsLastWrite(cfg, ops, from);
      HistoryHasNoRanges(cfg, ops);
      SpecIsLastPut(cfg, s, log, e);
    } else {
      RangeReadIsMap(cfg, ops, RecordId(e.key), from, to, e);
    }
  }

  lemma SpecIsLastPut(cfg: EngineConfig, s: State, log: seq<Entry>, e: Entry)
    requires Inv(cfg, s, log) && forall x :: x in log ==> x.kind != RangeDelete
    ensures ReadSpec(s, log, e.key) == Some(e) <==> Newest(log, e.key) == Some(e) && e.kind == Put
  {
    hide Inv, ListCovers, RecordId, ItemKey;
    var last := Newest(log, e.key);
    if last.Some? {
      NoTombstonesBuffered(cfg, s, log, RecordId(e.key), ItemKey(e.key), last.value.seqno);
    }
  }
}
