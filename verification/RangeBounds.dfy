/** Range reads in the caller's terms: a record, a start item and an end item
    (crates/flushdb-engine/src/read_path.rs, crates/flushdb-types/src/composite_key.rs). */
module RangeBounds {
  import opened Wrappers
  import opened ByteStrings
  import opened CompositeKeys
  import opened Entries
  import opened MergeIteration
  import opened RangeTombstones
  import opened Engine
  import opened EngineInvariant
  import opened EngineReads
  import opened EngineTheorems
  import opened RangeReads
  import opened RangeReadTheorems
  import opened PageLists
  import opened Pagination
  import opened RangeReadMeaning
  import opened RangeStarts
  import opened Operations

  // --- Which keys a range holds ---

  /** Keys between two keys of a record are the keys of the record between the two items. */
  lemma {:induction false} KeysBetween(record: Bytes, lo: Bytes, hi: Bytes, k: Bytes)
    requires SEPARATOR !in record
    ensures Within(k, Join(record, lo), Join(record, hi)) <==>
            HasSeparator(k) && RecordId(k) == record && Le(lo, ItemKey(k)) && Lt(ItemKey(k), hi)
  {
    LtIsStrictTotalOrder();
    hide Lt, Join, RecordId, ItemKey;
    if Within(k, Join(record, lo), Join(record, hi)) {
      RecordsAreContiguous(record, lo, k, hi);
      KeyHasSeparator(record, lo, hi, k);
    }
    if HasSeparator(k) && RecordId(k) == record {
      SplitJoin(k);
      OrderWithinRecord(record, ItemKey(k), hi);
      OrderWithinRecord(record, lo, ItemKey(k));
      SameItem(record, lo, ItemKey(k));
    }
  }

  lemma SameItem(record: Bytes, a: Bytes, b: Bytes)
    ensures Join(record, a) == Join(record, b) <==> a == b
  {
    assert Join(record, a)[|record| + 1..] == a && Join(record, b)[|record| + 1..] == b;
  }

  lemma KeyHasSeparator(record: Bytes, lo: Bytes, hi: Bytes, k: Bytes)
    requires Le(Join(record, lo), k) && Le(k, Join(record, hi))
    ensures HasSeparator(k)
  {
    PrefixBetween(record + [SEPARATOR], lo, k, hi);
    assert k[|record|] == (record + [SEPARATOR])[|record|];
  }

  /** The bounds of a range: from the start item, or the first one, up to the end item, or up to the
      tombstone prefix byte. */
  predicate InBounds(item: Bytes, start: Option<Bytes>, end: Option<Bytes>) {
    (start.Some? ==> Le(start.value, item)) && Lt(item, if end.Some? then end.value else [0xFF])
  }

  predicate ValidBounds(record: Bytes, start: Option<Bytes>, end: Option<Bytes>) {
    && ValidRecordId(record)
    && (start.Some? ==> |start.value| <= MAX_ITEM_KEY_LEN) && (end.Some? ==> |end.value| <= MAX_ITEM_KEY_LEN)
  }

  /** A range read begins and ends where its arguments say, and is refused exactly when they are not
      well formed. */
  lemma {:induction false} RangeHolds(record: Bytes, start: Option<Bytes>, end: Option<Bytes>, k: Bytes)
    ensures ValidBounds(record, start, end) <==> StartKey(record, start, None).Ok? && EndKey(record, end).Ok?
    ensures ValidBounds(record, start, end) ==>
              (Within(k, StartKey(record, start, None).value, EndKey(record, end).value) <==>
               HasSeparator(k) && RecordId(k) == record && InBounds(ItemKey(k), start, end))
  {
    if ValidBounds(record, start, end) {
      var lo := if start.Some? then start.value else [];
      var hi := if end.Some? then end.value else [0xFF];
      assert StartKey(record, start, None).value == Join(record, lo) && EndKey(record, end).value == Join(record, hi);
      KeysBetween(record, lo, hi, k);
      hide Lt;
      EmptyIsLeast(ItemKey(k));
    }
  }

  lemma EmptyIsLeast(item: Bytes)
    ensures Le([], item)
  {
  }

  // --- What a range read returns ---

  /** The key of the first item of the range, which is answered as a point read answers it. */
  function FirstKey(record: Bytes, start: Option<Bytes>): Bytes {
    Join(record, if start.Some? then start.value else [])
  }

  /** A point read of the key shows the last write to it, or nothing where there is nothing to show. */
  ghost predicate ReadsLastWrite(cfg: EngineConfig, ops: seq<Op>, k: Bytes) {
    var s, log := Run(cfg, ops), History(cfg, ops);
    Obscured(s, k) ==> Concealed(s, k, Newest(log, k)) && Concealed(s, k, Candidate(cfg, s, k))
  }

  ghost predicate ShowsItem(entries: seq<Entry>, k: Bytes, item: Item) {
    exists e :: e in entries && e.key == k && Item(e.value, e.metadata) == item
  }

  /** The entries show the items of the record in the bounds, and only them, as the map has them. */
  ghost predicate ReturnsExactly(entries: seq<Entry>, m: map<Bytes, Item>, record: Bytes, start: Option<Bytes>, end: Option<Bytes>) {
    forall item, shown :: ReturnsItem(entries, m, record, start, end, item, shown)
  }

  ghost predicate ReturnsItem(entries: seq<Entry>, m: map<Bytes, Item>, record: Bytes, start: Option<Bytes>, end: Option<Bytes>, item: Bytes, shown: Item) {
    ShowsItem(entries, Join(record, item), shown) <==> InBounds(item, start, end) && At(m, Join(record, item)) == Some(shown)
  }

  lemma {:induction false} EntryInRange(cfg: EngineConfig, s: State, log: seq<Entry>, record: Bytes, from: Bytes, to: Bytes, e: Entry)
    requires Inv(cfg, s, log) && e in Unlimited(s, record, from, to)
    ensures Within(e.key, from, to) && RecordId(e.key) == record && !e.IsTombstone()
  {
    hide Inv, Merged, Lt, All, KeysIncreasing, Offered, ReadOn, TombstonesOf, RecordId, ItemKey;
    ReadOnMembers(Merged(s, from, to), record, TombstonesOf(s.Memtables()));
    RangeReadTheorems.MergedIsNewest(cfg, s, log, from, to);
    AllIsOffered(cfg, s, log, from, to, e);
  }

  /** An entry of the read and the map of the operations. */
  lemma {:induction false} EntryIsItem(cfg: EngineConfig, ops: seq<Op>, from: Bytes, to: Bytes, e: Entry)
    requires NoRangeDeletes(ops) && Within(e.key, from, to) && (e.key == from ==> ReadsLastWrite(cfg, ops, from))
    ensures e in Unlimited(Run(cfg, ops), RecordId(e.key), from, to) <==> Newest(History(cfg, ops), e.key) == Some(e) && e.kind == Put
    ensures e in Unlimited(Run(cfg, ops), RecordId(e.key), from, to) ==> At(MapAfter(cfg, ops), e.key) == Some(Item(e.value, e.metadata))
  {
    hide Run, History, Unlimited, Newest, Obscured, Concealed, Candidate, RecordId, Lt, NoRangeDeletes, MapAfter, SaysAll, Inv, TokensMatch, Accepted, Meaning;
    RangeReadIsMapFromStart(cfg, ops, from, to, e);
    LastPutIsMapped(cfg, ops, e.key);
  }

  lemma {:induction false} LastPutIsMapped(cfg: EngineConfig, ops: seq<Op>, k: Bytes)
    requires NoRangeDeletes(ops)
    ensures At(MapAfter(cfg, ops), k) == Served(Newest(History(cfg, ops), k))
    ensures Newest(History(cfg, ops), k).Some? ==> Newest(History(cfg, ops), k).value.key == k && Newest(History(cfg, ops), k).value.kind != RangeDelete
  {
    hide Run, History, NoRangeDeletes, MapAfter, Inv, Accepted, Meaning;
    RunKeeps(cfg, ops);
    HistoryHasNoRanges(cfg, ops);
    ReadsTheOperations(cfg, ops, k);
    MapShowsLast(cfg, Run(cfg, ops), History(cfg, ops), k);
    NewestIsIn(History(cfg, ops), k);
  }

  /** Range reads, as a caller sees them. In every run of puts and point deletes, a read of a record from
      `start` to `end` with room for the answer returns exactly the items of the record in those bounds
      that the operations left there, with their values and metadata, in key order and without a token;
      the first item of the range is answered as a point read answers it. */
  lemma {:induction false} RangeReadReturnsItems(cfg: EngineConfig, ops: seq<Op>, record: Bytes, start: Option<Bytes>, end: Option<Bytes>, pageSize: nat)
    requires NoRangeDeletes(ops) && ValidBounds(record, start, end) && ReadsLastWrite(cfg, ops, FirstKey(record, start))
    requires TotalBytes(Unlimited(Run(cfg, ops), record, StartKey(record, start, None).value, EndKey(record, end).value)) < pageSize
    ensures var r := RangeRead(Run(cfg, ops), record, start, end, Options(pageSize, None, None));
            && r.Ok? && r.value.token == None && KeysIncreasing(r.value.entries)
            && ReturnsExactly(r.value.entries, MapAfter(cfg, ops), record, start, end)
  {
    hide Run, NoRangeDeletes, Unlimited, ReadsLastWrite, MapAfter, Lt, TotalBytes, StartKey, EndKey, KeysIncreasing, RangeRead;
    var s := Run(cfg, ops);
    RangeHolds(record, start, end, []);
    UnlimitedIsOnePage(s, record, start, end, pageSize);
    ReadsInOrder(cfg, ops, record, StartKey(record, start, None).value, EndKey(record, end).value);
    hide ReturnsExactly;
    AllItemsShown(cfg, ops, record, start, end);
  }

  lemma {:induction false} AllItemsShown(cfg: EngineConfig, ops: seq<Op>, record: Bytes, start: Option<Bytes>, end: Option<Bytes>)
    requires NoRangeDeletes(ops) && ValidBounds(record, start, end) && ReadsLastWrite(cfg, ops, FirstKey(record, start))
    requires StartKey(record, start, None).Ok? && EndKey(record, end).Ok?
    ensures ReturnsExactly(Unlimited(Run(cfg, ops), record, StartKey(record, start, None).value, EndKey(record, end).value), MapAfter(cfg, ops), record, start, end)
  {
    hide Run, NoRangeDeletes, Unlimited, ReadsLastWrite, MapAfter, StartKey, EndKey, ShowsItem, InBounds, Join, At;
    var es := Unlimited(Run(cfg, ops), record, StartKey(record, start, None).value, EndKey(record, end).value);
    forall item, shown
      ensures ReturnsItem(es, MapAfter(cfg, ops), record, start, end, item, shown)
    {
      ItemIsShown(cfg, ops, record, start, end, item, shown);
    }
  }

  lemma {:induction false} ReadsInOrder(cfg: EngineConfig, ops: seq<Op>, record: Bytes, from: Bytes, to: Bytes)
    ensures KeysIncreasing(Unlimited(Run(cfg, ops), record, from, to))
  {
    hide Run, Inv, Merged, TombstonesOf, ReadOn;
    RunKeeps(cfg, ops);
    MergedKeysIncreasing(cfg, Run(cfg, ops), History(cfg, ops), from, to);
    ReadKeepsOrder(Merged(Run(cfg, ops), from, to), record, TombstonesOf(Run(cfg, ops).Memtables()));
  }

  lemma {:induction false} ReadKeepsOrder(es: seq<Entry>, record: Bytes, ts: seq<RangeTombstone>)
    requires KeysIncreasing(es)
    ensures KeysIncreasing(ReadOn(es, record, ts))
  {
    hide Lt, Shows, TombstoneIn, IsValue;
    if es != [] {
      var tail := es[1..];
      assert forall j :: 0 <= j < |tail| ==> tail[j] == es[j + 1];
      ReadKeepsOrder(tail, record, ts + TombstoneIn(es[0], record));
      ReadOnMembers(tail, record, ts + TombstoneIn(es[0], record));
      var rest := ReadOn(tail, record, ts + TombstoneIn(es[0], record));
      assert forall j :: 0 <= j < |rest| ==> rest[j] in rest;
    }
  }

  lemma {:induction false} ItemIsShown(cfg: EngineConfig, ops: seq<Op>, record: Bytes, start: Option<Bytes>, end: Option<Bytes>, item: Bytes, shown: Item)
    requires NoRangeDeletes(ops) && ValidBounds(record, start, end) && ReadsLastWrite(cfg, ops, FirstKey(record, start))
    requires StartKey(record, start, None).Ok? && EndKey(record, end).Ok?
    ensures ShowsItem(Unlimited(Run(cfg, ops), record, StartKey(record, start, None).value, EndKey(record, end).value), Join(record, item), shown)
            <==> InBounds(item, start, end) && At(MapAfter(cfg, ops), Join(record, item)) == Some(shown)
  {
    hide Run, History, NoRangeDeletes, Unlimited, ReadsLastWrite, MapAfter, Lt, StartKey, EndKey, Newest, Inv, InBounds, Join, RecordId, ItemKey, HasSeparator, Within;
    var k, from, to := Join(record, item), StartKey(record, start, None).value, EndKey(record, end).value;
    var es := Unlimited(Run(cfg, ops), record, from, to);
    BeginsAtFirst(record, start);
    RangeHolds(record, start, end, k);
    JoinSplit(record, item);
    JoinHasSeparator(record, item);
    RunKeeps(cfg, ops);
    LastPutIsMapped(cfg, ops, k);
    if ShowsItem(es, k, shown) {
      var e :| e in es && e.key == k && Item(e.value, e.metadata) == shown;
      EntryInRange(cfg, Run(cfg, ops), History(cfg, ops), record, from, to, e);
      EntryIsItem(cfg, ops, from, to, e);
    }
    if InBounds(item, start, end) && At(MapAfter(cfg, ops), k) == Some(shown) {
      var e := Newest(History(cfg, ops), k).value;
      EntryIsItem(cfg, ops, from, to, e);
      assert e in es;
    }
  }

  lemma BeginsAtFirst(record: Bytes, start: Option<Bytes>)
    requires StartKey(record, start, None).Ok?
    ensures StartKey(record, start, None).value == FirstKey(record, start)
  {
  }

  lemma JoinHasSeparator(record: Bytes, item: Bytes)
    ensures HasSeparator(Join(record, item))
  {
    assert Join(record, item)[|record|] == SEPARATOR;
  }
}
