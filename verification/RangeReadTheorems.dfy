/** Pages against the single unlimited read, and range reads against the history of writes. */
module RangeReadTheorems {
  import opened Wrappers
  import opened ByteStrings
  import opened CompositeKeys
  import opened Entries
  import opened Tables
  import opened TableScans
  import opened Manifests
  import opened RangeTombstones
  import opened MergeIteration
  import opened LevelInvariants
  import opened Engine
  import opened EngineInvariant
  import opened RangeReads
  import T = Tiers
  import SortedRuns

  // --- The memtable source ---

  lemma {:induction false} InsertSortedKeeps(es: seq<Entry>, e: Entry)
    requires Sorted(es)
    ensures Sorted(InsertSorted(es, e)) && multiset(InsertSorted(es, e)) == multiset(es) + multiset{e}
  {
    if es != [] {
      var n := |es| - 1;
      assert es == es[..n] + [es[n]];
      if Before(e, es[n]) {
        InsertSortedKeeps(es[..n], e);
        SortedSnoc(InsertSorted(es[..n], e), es[..n], e, es[n]);
      } else {
        SortedPush(es, e);
      }
    }
  }

  lemma SortedPush(es: seq<Entry>, e: Entry)
    requires Sorted(es) && es != [] && !Before(e, es[|es| - 1])
    ensures Sorted(es + [e])
  {
    LtIsStrictTotalOrder();
    hide Lt;
    forall i | 0 <= i < |es|
      ensures !Before(e, es[i])
    {
      assert i < |es| - 1 ==> !Before(es[|es| - 1], es[i]);
    }
  }

  lemma SortedSnoc(out: seq<Entry>, es: seq<Entry>, e: Entry, last: Entry)
    requires Sorted(out) && multiset(out) == multiset(es) + multiset{e}
    requires Before(e, last) && Sorted(es + [last])
    ensures Sorted(out + [last])
  {
    LtIsStrictTotalOrder();
    hide Lt;
    forall i | 0 <= i < |out|
      ensures !Before(last, out[i])
    {
      assert out[i] in multiset(out);
      if out[i] in es {
        var j :| 0 <= j < |es| && es[j] == out[i];
        assert (es + [last])[j] == es[j] && (es + [last])[|es|] == last;
      }
    }
  }

  lemma {:induction false} SortEntriesKeeps(es: seq<Entry>)
    ensures Sorted(SortEntries(es)) && multiset(SortEntries(es)) == multiset(es)
  {
    if es != [] {
      var n := |es| - 1;
      assert es == es[..n] + [es[n]];
      SortEntriesKeeps(es[..n]);
      InsertSortedKeeps(SortEntries(es[..n]), es[n]);
    }
  }

  lemma SameMembers(a: seq<Entry>, b: seq<Entry>)
    requires multiset(a) == multiset(b)
    ensures forall e :: e in a <==> e in b
  {
    forall e
      ensures e in a <==> e in b
    {
      assert e in a <==> e in multiset(a);
      assert e in b <==> e in multiset(b);
    }
  }

  /** The source holds the newest scanned version of each key. */
  lemma MemSourceIsNewest(mts: seq<Memtable>, start: Bytes, end: Bytes)
    ensures IsNewestPerKey(MemSource(mts, start, end), ScanEach(mts, start, end))
  {
    var all := ScanEach(mts, start, end);
    SortEntriesKeeps(all);
    SameMembers(SortEntries(all), all);
    DedupKeepsNewest(SortEntries(all));
    hide Dedup, SortEntries, KeysIncreasing, ScanEach;
    forall e | e in MemSource(mts, start, end)
      ensures Dominates(e, all)
    {
      assert Dominates(e, SortEntries(all));
    }
  }

  lemma {:induction false} UnhiddenMembers(es: seq<Entry>, ts: seq<RangeTombstone>)
    ensures forall e :: e in Unhidden(es, ts) <==> e in es && !Covers(ts, RecordId(e.key), ItemKey(e.key), e.seqno)
  {
    if es != [] {
      hide RecordId, ItemKey;
      UnhiddenMembers(es[1..], ts);
      assert forall e :: e in es <==> e == es[0] || e in es[1..];
    }
  }

  /** A memtable offers the newest version of a key, unless its own tombstone covers it. */
  ghost predicate MemOffers(mt: Memtable, e: Entry) {
    e in mt.entries && Dominates(e, mt.entries) && !Covers(mt.tombstones, RecordId(e.key), ItemKey(e.key), e.seqno)
  }

  predicate Within(k: Bytes, start: Bytes, end: Bytes) {
    Le(start, k) && Lt(k, end)
  }

  lemma DedupMembers(s: seq<Entry>, e: Entry)
    requires StrictlySorted(s)
    ensures e in Dedup(s) <==> e in s && Dominates(e, s)
  {
    LtIsStrictTotalOrder();
    hide Lt;
    assert Sorted(s);
    DedupKeepsNewest(s);
    hide Dedup;
    if e in s && Dominates(e, s) {
      assert HasKey(Dedup(s), e.key);
      var f :| f in Dedup(s) && f.key == e.key;
      assert f.seqno == e.seqno;
      var i :| 0 <= i < |s| && s[i] == e;
      var j :| 0 <= j < |s| && s[j] == f;
      assert i == j;
    }
  }

  lemma MemtableScanMembers(mt: Memtable, start: Bytes, end: Bytes, e: Entry)
    requires StrictlySorted(mt.entries)
    ensures e in MemtableScan(mt, start, end) <==> MemOffers(mt, e) && Within(e.key, start, end)
  {
    var found := SortedRuns.InRange(mt.entries, start, end);
    SortedRuns.InRangeMembers(mt.entries, start, end);
    UnhiddenMembers(Dedup(found), mt.tombstones);
    DedupMembers(found, e);
    hide Dedup, SortedRuns.InRange, Lt, RecordId, ItemKey, StrictlySorted;
    if Within(e.key, start, end) {
      assert Dominates(e, found) <==> Dominates(e, mt.entries);
    }
  }

  ghost predicate MemListOffers(mts: seq<Memtable>, e: Entry) {
    exists i :: 0 <= i < |mts| && MemOffers(mts[i], e)
  }

  lemma {:induction false} ScanEachMembers(mts: seq<Memtable>, start: Bytes, end: Bytes, e: Entry)
    requires forall i :: 0 <= i < |mts| ==> StrictlySorted(mts[i].entries)
    ensures e in ScanEach(mts, start, end) <==> MemListOffers(mts, e) && Within(e.key, start, end)
  {
    hide MemOffers, Within, StrictlySorted;
    if mts != [] {
      MemtableScanMembers(mts[0], start, end, e);
      assert forall i :: 0 <= i < |mts[1..]| ==> mts[1..][i] == mts[i + 1];
      ScanEachMembers(mts[1..], start, end, e);
      if MemListOffers(mts, e) {
        var i :| 0 <= i < |mts| && MemOffers(mts[i], e);
        assert i > 0 ==> MemOffers(mts[1..][i - 1], e);
      }
      if MemListOffers(mts[1..], e) {
        var i :| 0 <= i < |mts[1..]| && MemOffers(mts[1..][i], e);
        assert MemOffers(mts[i + 1], e);
      }
    }
  }

  // --- The table sources ---

  ghost predicate TableFinds(t: Table, start: Bytes, end: Bytes, e: Entry) {
    t.OverlapsRange(start, end) && e in Scan(t, start, Some(end))
  }

  ghost predicate LevelFinds(ts: seq<Table>, start: Bytes, end: Bytes, e: Entry) {
    exists t :: t in ts && TableFinds(t, start, end, e)
  }

  lemma LevelFindsSplits(ts: seq<Table>, start: Bytes, end: Bytes, e: Entry)
    requires ts != []
    ensures LevelFinds(ts, start, end, e) <==> TableFinds(ts[0], start, end, e) || LevelFinds(ts[1..], start, end, e)
  {
    hide TableFinds;
    if LevelFinds(ts, start, end, e) {
      var t :| t in ts && TableFinds(t, start, end, e);
      assert t == ts[0] || t in ts[1..];
    }
    if LevelFinds(ts[1..], start, end, e) {
      var t :| t in ts[1..] && TableFinds(t, start, end, e);
      assert t in ts;
    }
  }

  lemma {:induction false} LevelSourcesMembers(ts: seq<Table>, start: Bytes, end: Bytes, e: Entry)
    ensures e in Flatten(LevelSources(ts, start, end)) <==> LevelFinds(ts, start, end, e)
  {
    hide Scan, Lt, LevelFinds, Flatten;
    if ts == [] {
      NothingFound(start, end, e);
    } else {
      LevelFindsSplits(ts, start, end, e);
      LevelSourcesMembers(ts[1..], start, end, e);
      var found := if ts[0].OverlapsRange(start, end) then Scan(ts[0], start, Some(end)) else [];
      FlattenAppend(if found == [] then [] else [found], LevelSources(ts[1..], start, end));
      OneSource(found);
    }
  }

  lemma NothingFound(start: Bytes, end: Bytes, e: Entry)
    ensures !LevelFinds([], start, end, e) && Flatten<Entry>([]) == []
  {
  }

  lemma OneSource(found: seq<Entry>)
    ensures Flatten(if found == [] then [] else [found]) == found
  {
    if found != [] {
      assert Flatten([found][1..]) == [];
    }
  }

  ghost predicate Finds(levels: Levels, start: Bytes, end: Bytes, e: Entry) {
    exists l :: 0 <= l < LEVELS && LevelFinds(levels[l], start, end, e)
  }

  lemma SourcesMembers(s: State, start: Bytes, end: Bytes, e: Entry)
    ensures e in Flatten(Sources(s, start, end)) <==> e in MemSource(s.Memtables(), start, end) || Finds(s.levels, start, end, e)
  {
    hide LevelSources, MemSource, LevelFinds, Flatten;
    var mem := MemSource(s.Memtables(), start, end);
    var head := if mem == [] then [] else [mem];
    var l0, l1, l2, l3 := LevelSources(s.levels[0], start, end), LevelSources(s.levels[1], start, end), LevelSources(s.levels[2], start, end), LevelSources(s.levels[3], start, end);
    OneSource(mem);
    FlattenAppend(head, l0);
    FlattenAppend(head + l0, l1);
    FlattenAppend(head + l0 + l1, l2);
    FlattenAppend(head + l0 + l1 + l2, l3);
    LevelSourcesMembers(s.levels[0], start, end, e);
    LevelSourcesMembers(s.levels[1], start, end, e);
    LevelSourcesMembers(s.levels[2], start, end, e);
    LevelSourcesMembers(s.levels[3], start, end, e);
    assert Finds(s.levels, start, end, e) <==>
           || LevelFinds(s.levels[0], start, end, e) || LevelFinds(s.levels[1], start, end, e)
           || LevelFinds(s.levels[2], start, end, e) || LevelFinds(s.levels[3], start, end, e) by {
      if Finds(s.levels, start, end, e) {
        var l :| 0 <= l < LEVELS && LevelFinds(s.levels[l], start, end, e);
        assert l == 0 || l == 1 || l == 2 || l == 3;
      }
    }
  }

  // --- What is on offer for a key ---

  ghost predicate Stores(levels: Levels, e: Entry) {
    exists l, t :: 0 <= l < LEVELS && t in levels[l] && e in t.Contents()
  }

  ghost predicate Offered(s: State, e: Entry) {
    MemListOffers(s.Memtables(), e) || Stores(s.levels, e)
  }

  ghost predicate BestOffer(s: State, e: Entry) {
    Offered(s, e) && forall f :: Offered(s, f) && f.key == e.key ==> f.seqno <= e.seqno
  }

  lemma FoundIsStored(cfg: EngineConfig, s: State, start: Bytes, end: Bytes, e: Entry)
    requires ValidLevels(cfg.compaction, s.levels) && Finds(s.levels, start, end, e)
    ensures Stores(s.levels, e) && Within(e.key, start, end)
  {
    var l :| 0 <= l < LEVELS && LevelFinds(s.levels[l], start, end, e);
    var t :| t in s.levels[l] && TableFinds(t, start, end, e);
    assert GoodTable(cfg.compaction, l, t);
    hide ValidLevels, WellFormed;
    ScanMembers(cfg.compaction.sst, t, start, Some(end));
  }

  lemma StoredIsFound(cfg: EngineConfig, s: State, start: Bytes, end: Bytes, e: Entry)
    requires ValidLevels(cfg.compaction, s.levels) && Stores(s.levels, e) && Lt(start, e.key) && Lt(e.key, end)
    ensures Finds(s.levels, start, end, e)
  {
    var l, t :| 0 <= l < LEVELS && t in s.levels[l] && e in t.Contents();
    assert GoodTable(cfg.compaction, l, t);
    hide ValidLevels, WellFormed;
    ScanMembers(cfg.compaction.sst, t, start, Some(end));
    KeyInRange(cfg.compaction.sst, t, e);
    LtIsStrictTotalOrder();
    hide Lt, Scan;
    assert TableFinds(t, start, end, e);
    assert LevelFinds(s.levels[l], start, end, e);
  }

  lemma OfferedIsLogged(cfg: EngineConfig, s: State, log: seq<Entry>, e: Entry)
    requires Inv(cfg, s, log) && Offered(s, e)
    ensures e in log
  {
    if MemListOffers(s.Memtables(), e) {
      var i :| 0 <= i < |s.Memtables()| && MemOffers(s.Memtables()[i], e);
      OlderAreLogged(cfg, s, log, i);
    } else {
      LevelsAreLogged(s, log);
      var l, t :| 0 <= l < LEVELS && t in s.levels[l] && e in t.Contents();
      assert e in T.Versions(s.levels[l]);
    }
  }

  lemma OfferedUnique(cfg: EngineConfig, s: State, log: seq<Entry>, e: Entry, f: Entry)
    requires Inv(cfg, s, log) && Offered(s, e) && Offered(s, f) && e.seqno == f.seqno
    ensures e == f
  {
    OfferedIsLogged(cfg, s, log, e);
    OfferedIsLogged(cfg, s, log, f);
    T.SameSeqnoInLog(log, e, f);
  }

  lemma MemtablesSorted(cfg: EngineConfig, s: State, log: seq<Entry>)
    requires Inv(cfg, s, log)
    ensures forall i :: 0 <= i < |s.Memtables()| ==> StrictlySorted(s.Memtables()[i].entries)
  {
    forall i | 0 <= i < |s.Memtables()|
      ensures StrictlySorted(s.Memtables()[i].entries)
    {
      assert GoodMemtable(s.Memtables()[i]);
    }
  }

  lemma {:induction false} LevelSourcesSorted(cfg: EngineConfig, ts: seq<Table>, l: nat, start: Bytes, end: Bytes)
    requires forall t :: t in ts ==> GoodTable(cfg.compaction, l, t)
    ensures AllSorted(LevelSources(ts, start, end))
  {
    if ts != [] {
      LevelSourcesSorted(cfg, ts[1..], l, start, end);
      assert GoodTable(cfg.compaction, l, ts[0]);
      ScanMembers(cfg.compaction.sst, ts[0], start, Some(end));
      StrictIsSorted(Scan(ts[0], start, Some(end)));
      hide Scan, GoodTable, Lt, Sorted;
    }
  }

  lemma StrictIsSorted(es: seq<Entry>)
    requires StrictlySorted(es)
    ensures Sorted(es)
  {
    LtIsStrictTotalOrder();
    hide Lt;
  }

  lemma KeysIncreasingIsSorted(es: seq<Entry>)
    requires KeysIncreasing(es)
    ensures Sorted(es)
  {
    LtIsStrictTotalOrder();
    hide Lt;
  }

  lemma AllSortedAppend(a: seq<seq<Entry>>, b: seq<seq<Entry>>)
    requires AllSorted(a) && AllSorted(b)
    ensures AllSorted(a + b)
  {
    hide Sorted;
  }

  lemma GoodLevel(cfg: EngineConfig, levels: Levels, l: nat)
    requires ValidLevels(cfg.compaction, levels) && l < LEVELS
    ensures forall t :: t in levels[l] ==> GoodTable(cfg.compaction, l, t)
  {
    hide GoodTable;
  }

  lemma MemSourceSorted(mts: seq<Memtable>, start: Bytes, end: Bytes)
    ensures AllSorted(if MemSource(mts, start, end) == [] then [] else [MemSource(mts, start, end)])
  {
    hide MemSource, Sorted;
    MemSourceIsNewest(mts, start, end);
    KeysIncreasingIsSorted(MemSource(mts, start, end));
  }

  lemma SourcesSorted(cfg: EngineConfig, s: State, start: Bytes, end: Bytes)
    requires ValidLevels(cfg.compaction, s.levels)
    ensures AllSorted(Sources(s, start, end))
  {
    hide MemSource, LevelSources, AllSorted, ValidLevels, GoodTable;
    var head := if MemSource(s.Memtables(), start, end) == [] then [] else [MemSource(s.Memtables(), start, end)];
    var l0, l1, l2, l3 := LevelSources(s.levels[0], start, end), LevelSources(s.levels[1], start, end), LevelSources(s.levels[2], start, end), LevelSources(s.levels[3], start, end);
    MemSourceSorted(s.Memtables(), start, end);
    GoodLevel(cfg, s.levels, 0);
    GoodLevel(cfg, s.levels, 1);
    GoodLevel(cfg, s.levels, 2);
    GoodLevel(cfg, s.levels, 3);
    LevelSourcesSorted(cfg, s.levels[0], 0, start, end);
    LevelSourcesSorted(cfg, s.levels[1], 1, start, end);
    LevelSourcesSorted(cfg, s.levels[2], 2, start, end);
    LevelSourcesSorted(cfg, s.levels[3], 3, start, end);
    AllSortedAppend(head, l0);
    AllSortedAppend(head + l0, l1);
    AllSortedAppend(head + l0 + l1, l2);
    AllSortedAppend(head + l0 + l1 + l2, l3);
  }

  // --- What the merge yields ---

  ghost function All(s: State, start: Bytes, end: Bytes): seq<Entry> {
    Flatten(Sources(s, start, end))
  }

  lemma DiskIsValid(cfg: EngineConfig, s: State, log: seq<Entry>)
    requires Inv(cfg, s, log)
    ensures ValidLevels(cfg.compaction, s.levels)
  {
  }

  lemma MergedIsNewest(cfg: EngineConfig, s: State, log: seq<Entry>, start: Bytes, end: Bytes)
    requires Inv(cfg, s, log)
    ensures IsNewestPerKey(Merged(s, start, end), All(s, start, end))
  {
    hide Inv, Sources, AllSorted, IsNewestPerKey, Dedup, Merge, Flatten;
    DiskIsValid(cfg, s, log);
    SourcesSorted(cfg, s, start, end);
    MergeKeepsNewest(Sources(s, start, end));
  }

  /** Whatever a source delivers is on offer and in range. */
  lemma AllIsOffered(cfg: EngineConfig, s: State, log: seq<Entry>, start: Bytes, end: Bytes, e: Entry)
    requires Inv(cfg, s, log) && e in All(s, start, end)
    ensures Offered(s, e) && Within(e.key, start, end)
  {
    hide Inv, Sources, Flatten, MemSource, ScanEach, Finds, MemListOffers, Stores, Within, StrictlySorted;
    SourcesMembers(s, start, end, e);
    if e in MemSource(s.Memtables(), start, end) {
      MemSourceIsNewest(s.Memtables(), start, end);
      MemtablesSorted(cfg, s, log);
      ScanEachMembers(s.Memtables(), start, end, e);
    } else {
      DiskIsValid(cfg, s, log);
      FoundIsStored(cfg, s, start, end, e);
    }
  }

  /** Past the start key, every offer is matched or beaten by something a source delivers. */
  lemma OfferIsMatched(cfg: EngineConfig, s: State, log: seq<Entry>, start: Bytes, end: Bytes, f: Entry) returns (g: Entry)
    requires Inv(cfg, s, log) && Offered(s, f) && Lt(start, f.key) && Lt(f.key, end)
    ensures g in All(s, start, end) && g.key == f.key && g.seqno >= f.seqno
  {
    hide Inv, Sources, Flatten, MemSource, ScanEach, Finds, MemListOffers, Stores, StrictlySorted, Lt;
    var mts := s.Memtables();
    if MemListOffers(mts, f) {
      MemSourceIsNewest(mts, start, end);
      MemtablesSorted(cfg, s, log);
      ScanEachMembers(mts, start, end, f);
      assert HasKey(MemSource(mts, start, end), f.key);
      g :| g in MemSource(mts, start, end) && g.key == f.key;
      assert Dominates(g, ScanEach(mts, start, end));
      SourcesMembers(s, start, end, g);
    } else {
      DiskIsValid(cfg, s, log);
      StoredIsFound(cfg, s, start, end, f);
      SourcesMembers(s, start, end, f);
      g := f;
    }
  }

  /** Past its start key a merged range holds exactly the best offer for each key, wherever the
      range begins. */
  lemma MergedIsBest(cfg: EngineConfig, s: State, log: seq<Entry>, start: Bytes, end: Bytes, e: Entry)
    requires Inv(cfg, s, log) && Lt(start, e.key) && Lt(e.key, end)
    ensures e in Merged(s, start, end) <==> BestOffer(s, e)
  {
    hide Inv, All, Merged, Offered, Lt, KeysIncreasing;
    MergedIsNewest(cfg, s, log, start, end);
    if e in Merged(s, start, end) {
      AllIsOffered(cfg, s, log, start, end, e);
      forall f | Offered(s, f) && f.key == e.key
        ensures f.seqno <= e.seqno
      {
        var g := OfferIsMatched(cfg, s, log, start, end, f);
        assert Dominates(e, All(s, start, end));
      }
    }
    if BestOffer(s, e) {
      var g := OfferIsMatched(cfg, s, log, start, end, e);
      assert HasKey(Merged(s, start, end), g.key);
      var h :| h in Merged(s, start, end) && h.key == g.key;
      assert Dominates(h, All(s, start, end));
      AllIsOffered(cfg, s, log, start, end, h);
      OfferedUnique(cfg, s, log, e, h);
    }
  }
}
