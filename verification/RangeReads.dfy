/** Range reads in pages, and the tokens that link the pages (crates/flushdb-engine/src/read_path.rs,
    memtable.rs and memtable_list.rs). */
module RangeReads {
  import opened Wrappers
  import opened ByteStrings
  import opened CompositeKeys
  import opened Entries
  import opened Tables
  import opened TableScans
  import opened Manifests
  import opened RangeTombstones
  import opened MergeIteration
  import opened Engine
  import SortedRuns

  // --- Page tokens ---

  const U32: nat := 0x1_0000_0000
  const U64: nat := 0x1_0000_0000_0000_0000

  datatype PageToken = PageToken(key: Bytes, seqno: nat, average: Option<nat>)

  function AverageBytes(average: Option<nat>): Bytes {
    if average.Some? then [1] + ToLe(average.value, 4) else [0]
  }

  function EncodeToken(t: PageToken): Bytes {
    ToLe(|t.key|, 4) + t.key + ToLe(t.seqno, 8) + AverageBytes(t.average)
  }

  function DecodeToken(data: Bytes): Result<PageToken> {
    if |data| < 12 then Err(InvalidArgument)
    else
      var n := FromLe(data[..4]);
      if |data| < 4 + n + 8 then Err(InvalidArgument)
      else
        var key :- ParseKey(data[4..4 + n]);
        var rest := data[4 + n + 8..];
        var average := if |rest| >= 5 && rest[0] == 1 then Some(FromLe(rest[1..5])) else None;
        Ok(PageToken(key, FromLe(data[4 + n..4 + n + 8]), average))
  }

  lemma TokenRoundTrip(t: PageToken)
    requires HasSeparator(t.key) && |t.key| < U32 && t.seqno < U64 && (t.average.Some? ==> t.average.value < U32)
    ensures DecodeToken(EncodeToken(t)) == Ok(t)
  {
    hide ToLe, FromLe, Pow256;
    Pow256Literals();
    LeRoundTrip(|t.key|, 4);
    LeRoundTrip(t.seqno, 8);
    var n, rest := |t.key|, AverageBytes(t.average);
    AverageReads(t.average);
    hide AverageBytes;
    var data := EncodeToken(t);
    FourParts(ToLe(n, 4), t.key, ToLe(t.seqno, 8), rest);
  }

  lemma FourParts(a: Bytes, b: Bytes, c: Bytes, d: Bytes)
    ensures var all := a + b + c + d;
            && all[..|a|] == a && all[|a|..|a| + |b|] == b
            && all[|a| + |b|..|a| + |b| + |c|] == c && all[|a| + |b| + |c|..] == d
  {
  }

  lemma AverageReads(average: Option<nat>)
    requires average.Some? ==> average.value < U32
    ensures var rest := AverageBytes(average);
            average == if |rest| >= 5 && rest[0] == 1 then Some(FromLe(rest[1..5])) else None
  {
    hide ToLe, FromLe, Pow256;
    if average.Some? {
      Pow256Literals();
      LeRoundTrip(average.value, 4);
      assert AverageBytes(average)[1..5] == ToLe(average.value, 4);
    }
  }

  // --- Memtable source ---

  /** `dedup_and_check_range_tombstones`: the newest version of each key, unless a tombstone of the
      same memtable covers it. */
  function Unhidden(es: seq<Entry>, ts: seq<RangeTombstone>): seq<Entry> {
    if es == [] then []
    else
      var e := es[0];
      (if Covers(ts, RecordId(e.key), ItemKey(e.key), e.seqno) then [] else [e]) + Unhidden(es[1..], ts)
  }

  function MemtableScan(mt: Memtable, start: Bytes, end: Bytes): seq<Entry> {
    Unhidden(Dedup(SortedRuns.InRange(mt.entries, start, end)), mt.tombstones)
  }

  function InsertSorted(es: seq<Entry>, e: Entry): seq<Entry> {
    if es == [] || !Before(e, es[|es| - 1]) then es + [e]
    else InsertSorted(es[..|es| - 1], e) + [es[|es| - 1]]
  }

  /** Stable sort by key ascending, sequence descending. */
  function SortEntries(es: seq<Entry>): seq<Entry> {
    if es == [] then [] else InsertSorted(SortEntries(es[..|es| - 1]), es[|es| - 1])
  }

  function ScanEach(mts: seq<Memtable>, start: Bytes, end: Bytes): seq<Entry> {
    if mts == [] then [] else MemtableScan(mts[0], start, end) + ScanEach(mts[1..], start, end)
  }

  /** `scan_all_with_tombstones` */
  function MemSource(mts: seq<Memtable>, start: Bytes, end: Bytes): seq<Entry> {
    Dedup(SortEntries(ScanEach(mts, start, end)))
  }

  // --- All sources ---

  function LevelSources(ts: seq<Table>, start: Bytes, end: Bytes): seq<seq<Entry>> {
    if ts == [] then []
    else
      var found := if ts[0].OverlapsRange(start, end) then Scan(ts[0], start, Some(end)) else [];
      (if found == [] then [] else [found]) + LevelSources(ts[1..], start, end)
  }

  function Sources(s: State, start: Bytes, end: Bytes): seq<seq<Entry>> {
    var mem := MemSource(s.Memtables(), start, end);
    (if mem == [] then [] else [mem])
    + LevelSources(s.levels[0], start, end) + LevelSources(s.levels[1], start, end)
    + LevelSources(s.levels[2], start, end) + LevelSources(s.levels[3], start, end)
  }

  function Merged(s: State, start: Bytes, end: Bytes): seq<Entry> {
    Dedup(Merge(Sources(s, start, end)))
  }

  function TombstonesOf(mts: seq<Memtable>): seq<RangeTombstone> {
    if mts == [] then [] else mts[0].tombstones + TombstonesOf(mts[1..])
  }

  // --- One page ---

  datatype Options = Options(pageSize: nat, itemLimit: Option<nat>, resume: Option<PageToken>)

  datatype Page = Page(entries: seq<Entry>, bytes: nat, token: Option<PageToken>)

  function EntryBytes(e: Entry): nat {
    |e.key| + |e.value| + |e.metadata|
  }

  /** The tombstone a range-delete entry of the scan adds to the collector. */
  function Collect(ts: seq<RangeTombstone>, record: Bytes, e: Entry): seq<RangeTombstone> {
    var item := ItemKey(e.key);
    if e.kind != RangeDelete then ts
    else if item == [] then ts + [RangeTombstone(record, [], e.value, e.seqno)]
    else if item[0] == RANGE_TOMBSTONE_PREFIX then ts + [RangeTombstone(record, item[1..], e.value, e.seqno)]
    else ts
  }

  predicate Behind(e: Entry, resume: Option<PageToken>) {
    resume.Some? && Le(e.key, resume.value.key)
  }

  predicate Shows(e: Entry, record: Bytes, ts: seq<RangeTombstone>) {
    RecordId(e.key) == record && !e.IsTombstone() && !Covers(ts, RecordId(e.key), ItemKey(e.key), e.seqno)
  }

  predicate Full(entries: seq<Entry>, bytes: nat, o: Options) {
    bytes >= o.pageSize || (o.itemLimit.Some? && |entries| >= o.itemLimit.value)
  }

  /** What the loop of `range_read` carries: the tombstones met, the page, its size, and whether a
      limit was reached. */
  datatype Progress = Progress(ts: seq<RangeTombstone>, page: seq<Entry>, bytes: nat, full: bool)

  /** One turn of the loop. */
  function Visit(e: Entry, record: Bytes, o: Options, p: Progress): Progress {
    if Behind(e, o.resume) then p.(ts := Collect(p.ts, record, e))
    else if RecordId(e.key) != record then p
    else if e.kind == RangeDelete then p.(ts := Collect(p.ts, record, e))
    else if !Shows(e, record, p.ts) then p
    else
      var page, bytes := p.page + [e], p.bytes + EntryBytes(e);
      p.(page := page, bytes := bytes, full := Full(page, bytes, o))
  }

  /** The loop, and what the iterator still holds after it. */
  function Fill(es: seq<Entry>, record: Bytes, o: Options, p: Progress): (Progress, seq<Entry>)
    decreases |es|
  {
    if es == [] || p.full then (p, es) else Fill(es[1..], record, o, Visit(es[0], record, o, p))
  }

  /** A token points at the last entry of the page. */
  function TokenFrom(p: Progress): Option<PageToken> {
    if p.page == [] then None
    else
      var last := p.page[|p.page| - 1];
      Some(PageToken(last.key, last.seqno, if p.bytes > 0 then Some(p.bytes / |p.page| % U32) else None))
  }

  function StartKey(record: Bytes, start: Option<Bytes>, resume: Option<PageToken>): Result<Bytes> {
    if resume.Some? then Ok(resume.value.key)
    else if start.Some? then NewKey(record, start.value) else MinKeyForRecord(record)
  }

  function EndKey(record: Bytes, end: Option<Bytes>): Result<Bytes> {
    if end.Some? then NewKey(record, end.value) else MaxKeyForRecord(record)
  }

  function PageOf(p: Progress, rest: seq<Entry>): Page {
    Page(p.page, p.bytes, if rest == [] then None else TokenFrom(p))
  }

  /** `range_read` */
  function RangeRead(s: State, record: Bytes, start: Option<Bytes>, end: Option<Bytes>, o: Options): Result<Page> {
    var from :- StartKey(record, start, o.resume);
    var to :- EndKey(record, end);
    var (p, rest) := Fill(Merged(s, from, to), record, o, Progress(TombstonesOf(s.Memtables()), [], 0, false));
    Ok(PageOf(p, rest))
  }

  /** The loop of `range_read` over a merge iterator. */
  method FillLoop(sources: seq<seq<Entry>>, record: Bytes, memory: seq<RangeTombstone>, o: Options) returns (page: Page)
    ensures var (p, rest) := Fill(Dedup(Merge(sources)), record, o, Progress(memory, [], 0, false)); page == PageOf(p, rest)
  {
    hide Visit, Dedup, Merge, TokenFrom;
    var iter := new MergeIterator(sources);
    var p := Progress(memory, [], 0, false);
    ghost var whole := Fill(Dedup(Merge(sources)), record, o, p);
    var more := true;
    while more && !p.full
      invariant iter.Valid() && fresh(iter)
      invariant whole == Fill(Dedup(iter.Rest()), record, o, p)
      invariant !more ==> Dedup(iter.Rest()) == []
      decreases more, |Dedup(iter.Rest())|
    {
      var next := iter.NextDeduped();
      if next.None? {
        more := false;
      } else {
        p := Visit(next.value, record, o, p);
      }
    }
    var done := iter.IsExhausted();
    NothingLeft(iter.Rest());
    page := Page(p.page, p.bytes, if done then None else TokenFrom(p));
  }

  lemma NothingLeft(es: seq<Entry>)
    ensures Dedup(es) == [] <==> es == []
  {
  }
}
