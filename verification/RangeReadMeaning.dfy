/** Range reads against the history of writes. */
module RangeReadMeaning {
  import opened Wrappers
  import opened ByteStrings
  import opened CompositeKeys
  import opened Entries
  import opened Tables
  import opened TableScans
  import opened Manifests
  import opened RangeTombstones
  import opened MergeIteration
  import opened Engine
  import opened EngineInvariant
  import opened EngineReads
  import opened EngineTheorems
  import opened RangeReads
  import opened RangeReadTheorems
  import opened PageLists
  import opened Pagination
  import T = Tiers

  // --- Where range-delete entries lie ---

  ghost predicate RangeKey(k: Bytes) {
    exists record, start :: IsRangeKey(k, record, start)
  }

  ghost predicate IsRangeKey(k: Bytes, record: Bytes, start: Bytes) {
    SEPARATOR !in record && k == Join(record, [RANGE_TOMBSTONE_PREFIX] + start)
  }

  lemma {:induction false} RangeDeletesHaveRangeKeys(cfg: EngineConfig, ops: seq<Op>)
    ensures forall e :: e in History(cfg, ops) && e.kind == RangeDelete ==> RangeKey(e.key)
  {
    if ops != [] {
      RangeDeletesHaveRangeKeys(cfg, ops[..|ops| - 1]);
      var op := ops[|ops| - 1];
      if op.DeleteRangeOp? && RangeTombstoneKey(op.record, op.start).Ok? {
        assert IsRangeKey(RangeTombstoneKey(op.record, op.start).value, op.record, op.start);
      }
    }
  }

  /** Below the tombstone prefix byte a record holds no range-delete entries: the default end of a
      range, and every end item up to that byte, stops short of them. */
  lemma RangesLieAbove(cfg: EngineConfig, ops: seq<Op>, record: Bytes, start: Option<Bytes>, end: Option<Bytes>)
    requires StartKey(record, start, None).Ok? && EndKey(record, end).Ok?
    requires end.Some? ==> Le(end.value, [RANGE_TOMBSTONE_PREFIX])
    ensures RangesApart(History(cfg, ops), StartKey(record, start, None).value, EndKey(record, end).value)
  {
    RangeDeletesHaveRangeKeys(cfg, ops);
    var lo := if start.Some? then start.value else [];
    var hi := if end.Some? then end.value else [RANGE_TOMBSTONE_PREFIX];
    assert StartKey(record, start, None).value == Join(record, lo) && EndKey(record, end).value == Join(record, hi);
    hide Lt, History, Join, StartKey, EndKey;
    forall e | e in History(cfg, ops) && e.kind == RangeDelete
      ensures !Within(e.key, Join(record, lo), Join(record, hi))
    {
      var r, st :| IsRangeKey(e.key, r, st);
      RangeKeyIsOutside(record, lo, hi, r, st);
    }
  }

  lemma RangeKeyIsOutside(record: Bytes, lo: Bytes, hi: Bytes, r: Bytes, st: Bytes)
    requires SEPARATOR !in record && SEPARATOR !in r && Le(hi, [RANGE_TOMBSTONE_PREFIX])
    ensures !Within(Join(r, [RANGE_TOMBSTONE_PREFIX] + st), Join(record, lo), Join(record, hi))
  {
    LtIsStrictTotalOrder();
    var prefix: Bytes := [RANGE_TOMBSTONE_PREFIX];
    var k := Join(r, prefix + st);
    PrefixIsLeast(prefix, st);
    hide Lt, Join;
    if Within(k, Join(record, lo), Join(record, hi)) {
      RecordsAreContiguous(record, lo, k, hi);
      JoinSplit(r, prefix + st);
      OrderWithinRecord(record, prefix + st, hi);
      assert false;
    }
  }

  lemma PrefixIsLeast(p: Bytes, s: Bytes)
    ensures Le(p, p + s)
  {
    LtCommonPrefix(p, [], s);
    assert p + [] == p;
    if s == [] {
      assert p + s == p;
    }
  }

  // --- The unlimited read is one page ---

  /** A read whose page size exceeds the whole answer returns the whole answer and no token. */
  lemma UnlimitedIsOnePage(s: State, record: Bytes, start: Option<Bytes>, end: Option<Bytes>, pageSize: nat)
    requires StartKey(record, start, None).Ok? && EndKey(record, end).Ok?
    requires TotalBytes(Unlimited(s, record, StartKey(record, start, None).value, EndKey(record, end).value)) < pageSize
    ensures var from, to := StartKey(record, start, None).value, EndKey(record, end).value;
            var r := RangeRead(s, record, start, end, Options(pageSize, None, None));
            r.Ok? && r.value.entries == Unlimited(s, record, from, to) && r.value.token == None
  {
    hide Merged, Fill, ReadOn, TombstonesOf, StartKey, EndKey, TotalBytes;
    var from, to := StartKey(record, start, None).value, EndKey(record, end).value;
    var o := Options(pageSize, None, None);
    ReadsFrom(s, record, start, end, from, to, o);
    FillsEverything(Merged(s, from, to), record, o, Progress(TombstonesOf(s.Memtables()), [], 0, false));
    assert [] + Unlimited(s, record, from, to) == Unlimited(s, record, from, to);
  }

  // --- The answer is the map of the history ---

  ghost predicate NoRangeEntries(log: seq<Entry>) {
    forall e :: e in log ==> e.kind != RangeDelete
  }

  lemma NoTombstones(cfg: EngineConfig, s: State, log: seq<Entry>)
    requires Inv(cfg, s, log) && NoRangeEntries(log)
    ensures forall i :: 0 <= i < |s.Memtables()| ==> s.Memtables()[i].tombstones == []
  {
    hide GoodDisk, T.Ordered;
    forall i | 0 <= i < |s.Memtables()|
      ensures s.Memtables()[i].tombstones == []
    {
      var mt := s.Memtables()[i];
      assert GoodMemtable(mt);
      OlderAreLogged(cfg, s, log, i);
      EngineTheorems.EmptyOrInhabited(mt.tombstones);
    }
  }

  lemma {:induction false} NoTombstonesCollected(mts: seq<Memtable>)
    requires forall i :: 0 <= i < |mts| ==> mts[i].tombstones == []
    ensures TombstonesOf(mts) == []
  {
    if mts != [] {
      assert forall i :: 0 <= i < |mts[1..]| ==> mts[1..][i] == mts[i + 1];
      NoTombstonesCollected(mts[1..]);
    }
  }

  /** The last write to a key is the best offer, unless it is a delete of which nothing is left. */
  lemma LastWriteIsOffered(cfg: EngineConfig, s: State, log: seq<Entry>, e: Entry)
    requires Inv(cfg, s, log) && NoRangeEntries(log) && Newest(log, e.key) == Some(e)
    ensures BestOffer(s, e) || e.IsTombstone()
  {
    hide GoodDisk, GoodMemory, T.Ordered, T.LogOrdered, Newest, Offered;
    var tiers := TiersOf(s);
    assert T.Shown(tiers, log, e.key);
    if T.InSomeTier(tiers, e) {
      var i :| 0 <= i < |tiers| && e in tiers[i];
      TierOffers(cfg, s, log, e, i);
      forall f | Offered(s, f) && f.key == e.key
        ensures f.seqno <= e.seqno
      {
        OfferedIsLogged(cfg, s, log, f);
      }
    }
  }

  lemma TierOffers(cfg: EngineConfig, s: State, log: seq<Entry>, e: Entry, i: nat)
    requires Inv(cfg, s, log) && NoRangeEntries(log) && Newest(log, e.key) == Some(e)
    requires i < |TiersOf(s)| && e in TiersOf(s)[i]
    ensures Offered(s, e)
  {
    hide Inv, Newest;
    TiersHaveShape(s);
    NoTombstones(cfg, s, log);
    var mts := s.Memtables();
    if i < |mts| {
      MemoryLogged(cfg, s, log, i);
      assert MemOffers(mts[i], e);
    } else {
      assert e in T.Versions(s.levels[i - |mts|]);
      var t :| t in s.levels[i - |mts|] && e in t.Contents();
    }
  }

  lemma MemoryLogged(cfg: EngineConfig, s: State, log: seq<Entry>, i: nat)
    requires Inv(cfg, s, log) && i < |s.Memtables()|
    ensures forall x :: x in s.Memtables()[i].entries ==> x in log
  {
    OlderAreLogged(cfg, s, log, i);
  }

  /** Without range deletes a reading shows what the tombstones of the memtables leave. */
  lemma {:induction false} PlainReading(es: seq<Entry>, record: Bytes, ts: seq<RangeTombstone>)
    requires NoRanges(es)
    ensures forall e :: e in ReadOn(es, record, ts) <==> e in es && Shows(e, record, ts)
  {
    hide Shows, RecordId, ItemKey;
    if es != [] {
      assert es[0] in es && forall e :: e in es <==> e == es[0] || e in es[1..];
      assert ts + TombstoneIn(es[0], record) == ts;
      PlainReading(es[1..], record, ts);
    }
  }

  lemma BestIsNewest(cfg: EngineConfig, s: State, log: seq<Entry>, e: Entry)
    requires Inv(cfg, s, log) && NoRangeEntries(log) && BestOffer(s, e)
    ensures Newest(log, e.key) == Some(e)
  {
    hide GoodDisk, GoodMemory, T.Ordered, T.LogOrdered, Newest, Offered;
    OfferedIsLogged(cfg, s, log, e);
    var last := Newest(log, e.key).value;
    assert T.Shown(TiersOf(s), log, e.key);
    if T.InSomeTier(TiersOf(s), last) {
      var i :| 0 <= i < |TiersOf(s)| && last in TiersOf(s)[i];
      TierOffers(cfg, s, log, last, i);
      OfferedUnique(cfg, s, log, e, last);
    } else {
      OfferHasTier(cfg, s, log, e);
    }
  }

  lemma OfferHasTier(cfg: EngineConfig, s: State, log: seq<Entry>, e: Entry)
    requires Offered(s, e)
    ensures !T.NoVersion(TiersOf(s), e.key)
  {
    TiersHaveShape(s);
    var mts := s.Memtables();
    if MemListOffers(mts, e) {
      var i :| 0 <= i < |mts| && MemOffers(mts[i], e);
      assert T.HasVersion(TiersOf(s)[i], e.key);
    } else {
      var l, t :| 0 <= l < LEVELS && t in s.levels[l] && e in t.Contents();
      assert e in T.Versions(s.levels[l]);
      assert T.HasVersion(TiersOf(s)[|mts| + l], e.key);
    }
  }

  /** Range reads return the map: in every run of puts and point deletes, for every key past the
      start of the range, the unlimited read holds the key exactly when the map of the history does,
      with that value; block boundaries hide nothing here. */
  lemma {:induction false} RangeReadIsMap(cfg: EngineConfig, ops: seq<Op>, record: Bytes, from: Bytes, to: Bytes, e: Entry)
    requires NoRangeDeletes(ops) && Lt(from, e.key) && Lt(e.key, to) && RecordId(e.key) == record
    ensures e in Unlimited(Run(cfg, ops), record, from, to) <==> Newest(History(cfg, ops), e.key) == Some(e) && e.kind == Put
    ensures e in Unlimited(Run(cfg, ops), record, from, to) ==> At(Meaning(History(cfg, ops)), e.key) == Some(Item(e.value, e.metadata))
  {
    var s, log := Run(cfg, ops), History(cfg, ops);
    RunKeeps(cfg, ops);
    HistoryHasNoRanges(cfg, ops);
    hide Inv, Run, History, Newest, Merged, Lt, NoRangeDeletes;
    var ts := TombstonesOf(s.Memtables());
    NoTombstones(cfg, s, log);
    NoTombstonesCollected(s.Memtables());
    MergedHasNoRanges(cfg, s, log, from, from, to);
    PlainReading(Merged(s, from, to), record, ts);
    MergedIsBest(cfg, s, log, from, to, e);
    NothingCovers(RecordId(e.key), ItemKey(e.key), e.seqno);
    NewestIsLogged(log, e.key);
    if BestOffer(s, e) {
      BestIsNewest(cfg, s, log, e);
    }
    if Newest(log, e.key) == Some(e) {
      LastWriteIsOffered(cfg, s, log, e);
    }
    LogInOrder(cfg, s, log);
    MeaningIsLastWrite(log, e.key);
  }

  lemma NothingCovers(record: Bytes, item: Bytes, seqno: nat)
    ensures !Covers([], record, item, seqno)
  {
  }

  lemma NewestIsLogged(log: seq<Entry>, k: Bytes)
    ensures Newest(log, k).Some? ==> Newest(log, k).value in log
  {
  }

  lemma LogInOrder(cfg: EngineConfig, s: State, log: seq<Entry>)
    requires Inv(cfg, s, log)
    ensures WritesInOrder(log)
  {
  }
}
