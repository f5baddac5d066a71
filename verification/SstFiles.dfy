/** Whole SSTable files: the writer's layout, opening a file, and lookups and scans that read its
    bytes (crates/flushdb-engine/src/sstable/writer.rs and sstable_handle.rs). */
module SstFiles {
  import opened Wrappers
  import opened ByteStrings
  import opened CompositeKeys
  import opened Entries
  import opened Tables
  import opened TableScans
  import opened SstFormats
  import opened BlockCodec
  import BloomFilters
  import Varints

  /** The writer's settings: how tables are cut and filtered, the checksum, the codec of each
      compression type and the type in use. */
  datatype Format = Format(sst: SstConfig, crc: Bytes -> nat, codecs: byte -> Codec, compression: byte) {
    function Codec(): BlockCodec.Codec {
      codecs(compression)
    }
  }

  ghost predicate ValidFormat(f: Format) {
    f.compression <= 2 && ValidCodec(f.Codec()) && forall b :: f.crc(b) < U32
  }

  // --- Layout ---

  function DataOf(c: Codec, blocks: seq<seq<Entry>>): Bytes {
    if blocks == [] then [] else EncodeBlock(c, blocks[0]) + DataOf(c, blocks[1..])
  }

  function IndexEntryOf(c: Codec, b: seq<Entry>, offset: nat): IndexEntry
    requires b != []
  {
    IndexEntry(b[0].key, offset, |EncodeBlock(c, b)|, |BlockPayload(c, b)|)
  }

  function IndexOf(c: Codec, blocks: seq<seq<Entry>>, offset: nat): (index: seq<IndexEntry>)
    requires forall i :: 0 <= i < |blocks| ==> blocks[i] != []
    ensures |index| == |blocks|
  {
    if blocks == [] then []
    else [IndexEntryOf(c, blocks[0], offset)] + IndexOf(c, blocks[1..], offset + |EncodeBlock(c, blocks[0])|)
  }

  /** The parts of a file after the header, up to the footer. */
  datatype Parts = Parts(data: Bytes, dedup: Bytes, filter: BloomFilters.Filter, index: seq<IndexEntry>)

  function Body(p: Parts): Bytes {
    p.data + p.dedup + SerializeFilter(p.filter) + SerializeIndex(p.index)
  }

  function FooterOf(p: Parts, count: nat, min: Bytes, max: Bytes, compression: byte): Footer {
    var filterOffset := HEADER_SIZE + |p.data| + |p.dedup|;
    var filterSize := |SerializeFilter(p.filter)|;
    Footer(filterOffset, filterSize, filterOffset + filterSize, |SerializeIndex(p.index)|, count,
           TruncateKey(min), TruncateKey(max), compression, FORMAT_VERSION, |p.dedup|)
  }

  function FileOfParts(f: Format, p: Parts, count: nat, min: Bytes, max: Bytes): Bytes {
    EncodeHeader(f.compression, count) + Body(p) + EncodeFooter(f.crc, FooterOf(p, count, min, max, f.compression))
  }

  function PartsOf(f: Format, blocks: seq<seq<Entry>>, records: set<Bytes>, dedup: Bytes): Parts
    requires forall i :: 0 <= i < |blocks| ==> blocks[i] != []
  {
    Parts(DataOf(f.Codec(), blocks), dedup, BloomFilters.Build(f.sst.hash, records, f.sst.bitsPerKey), IndexOf(f.Codec(), blocks, HEADER_SIZE))
  }

  lemma BlocksNonempty(es: seq<Entry>, target: nat)
    ensures forall i :: 0 <= i < |SplitBlocks([], es, target)| ==> SplitBlocks([], es, target)[i] != []
  {
    SplitBlocksCuts([], es, target);
    var blocks := SplitBlocks([], es, target);
    assert forall i :: 0 <= i < |blocks| ==> blocks[i] in blocks;
  }

  /** `write`: the bytes of the file; the dedup block is given, as no read consults it. */
  function FileBytes(f: Format, es: seq<Entry>, dedup: Bytes): Bytes
    requires es != []
  {
    BlocksNonempty(es, f.sst.blockTarget);
    FileOfParts(f, PartsOf(f, SplitBlocks([], es, f.sst.blockTarget), RecordsOf(es), dedup), |es|, es[0].key, es[|es| - 1].key)
  }

  /** Sizes fit the fields that hold them. */
  ghost predicate PartsFit(p: Parts, count: nat) {
    && HEADER_SIZE + |Body(p)| < U64 && count < U64
    && |p.dedup| < U32 && |SerializeFilter(p.filter)| < U32 && |SerializeIndex(p.index)| < U32
    && |p.index| < U32 && FilterFits(p.filter)
    && (forall i :: 0 <= i < |p.index| ==> IndexFits(p.index[i]))
  }

  // --- Reading ---

  datatype Handle = Handle(footer: Footer, filter: BloomFilters.Filter, index: seq<IndexEntry>)

  function GetRange(file: Bytes, offset: nat, size: nat): Result<Bytes> {
    if offset + size <= |file| then Ok(file[offset..offset + size]) else Err(InvalidArgument)
  }

  /** `SSTableHandle::open` */
  function Open(crc: Bytes -> nat, file: Bytes): Result<Handle> {
    if |file| < FOOTER_SIZE then Err(InvalidArgument)
    else
      var tail :- GetRange(file, |file| - FOOTER_SIZE, FOOTER_SIZE);
      var footer :- DecodeFooter(crc, tail);
      var filterBytes :- GetRange(file, footer.filterOffset, footer.filterSize);
      var filter :- DeserializeFilter(filterBytes);
      var indexBytes :- GetRange(file, footer.indexOffset, footer.indexSize);
      var index :- DeserializeIndex(indexBytes);
      Ok(Handle(footer, filter, index))
  }

  /** Partition point of `first_key <= k`. */
  function IndexUpTo(index: seq<IndexEntry>, k: Bytes): (n: nat)
    ensures n <= |index|
  {
    if index == [] || !Le(index[0].firstKey, k) then 0 else 1 + IndexUpTo(index[1..], k)
  }

  function FetchBlock(f: Format, file: Bytes, h: Handle, i: nat): Result<seq<Entry>>
    requires i < |h.index|
  {
    var raw :- GetRange(file, h.index[i].offset, h.index[i].size);
    DecodeBlock(f.codecs(h.footer.compression), raw)
  }

  function FileGet(f: Format, file: Bytes, h: Handle, k: Bytes): Result<Option<Entry>> {
    if !BloomFilters.MaybeContains(f.sst.hash, h.filter, RecordId(k)) then Ok(None)
    else
      var n := IndexUpTo(h.index, k);
      if n == 0 then Ok(None)
      else
        var block :- FetchBlock(f, file, h, n - 1);
        Ok(Newest(block, k))
  }

  function FileScanFrom(f: Format, file: Bytes, h: Handle, i: nat, first: bool, start: Bytes, end: Option<Bytes>): Result<seq<Entry>>
    requires i <= |h.index|
    decreases |h.index| - i
  {
    if i == |h.index| then Ok([])
    else if !first && !BeforeEnd(h.index[i].firstKey, end) then Ok([])
    else
      var block :- FetchBlock(f, file, h, i);
      var (found, stop) := ScanBlock(block, start, end);
      if stop then Ok(found)
      else
        var rest :- FileScanFrom(f, file, h, i + 1, false, start, end);
        Ok(found + rest)
  }

  function FileScan(f: Format, file: Bytes, h: Handle, start: Bytes, end: Option<Bytes>): Result<seq<Entry>> {
    var n := IndexUpTo(h.index, start);
    FileScanFrom(f, file, h, if n == 0 then 0 else n - 1, true, start, end)
  }

  // --- Opening what was written ---

  lemma SliceInside(before: Bytes, middle: Bytes, after: Bytes, x: nat, y: nat)
    requires x <= y <= |middle|
    ensures (before + middle + after)[|before| + x..|before| + y] == middle[x..y]
  {
  }

  lemma OpensParts(f: Format, p: Parts, count: nat, min: Bytes, max: Bytes)
    requires ValidFormat(f) && PartsFit(p, count)
    ensures Open(f.crc, FileOfParts(f, p, count, min, max)) == Ok(Handle(FooterOf(p, count, min, max, f.compression), p.filter, p.index))
  {
    hide EncodeHeader, SerializeFilter, SerializeIndex, EncodeFooter, DecodeFooter, DeserializeFilter, DeserializeIndex, TruncateKey, FilterFits, IndexFits;
    var footer := FooterOf(p, count, min, max, f.compression);
    FooterRoundTrip(f.crc, footer);
    FilterRoundTrip(p.filter);
    IndexRoundTrip(p.index);
    var file := FileOfParts(f, p, count, min, max);
    var header, filter, index, last := EncodeHeader(f.compression, count), SerializeFilter(p.filter), SerializeIndex(p.index), EncodeFooter(f.crc, footer);
    assert file == header + Body(p) + last + [];
    SliceInside(header + Body(p), last, [], 0, FOOTER_SIZE);
    assert last[0..FOOTER_SIZE] == last;
    assert file == (header + p.data + p.dedup) + filter + (index + last);
    SliceInside(header + p.data + p.dedup, filter, index + last, 0, |filter|);
    assert filter[0..|filter|] == filter;
    assert file == (header + p.data + p.dedup + filter) + index + last;
    SliceInside(header + p.data + p.dedup + filter, index, last, 0, |index|);
    assert index[0..|index|] == index;
  }

  /** The index entry gives the block's place in data that begins at `offset`. */
  ghost predicate Located(data: Bytes, e: IndexEntry, offset: nat, block: Bytes) {
    && offset <= e.offset && e.offset + e.size <= offset + |data|
    && data[e.offset - offset..e.offset - offset + e.size] == block
  }

  lemma {:induction false} DataOfSnoc(c: Codec, blocks: seq<seq<Entry>>, b: seq<Entry>)
    ensures DataOf(c, blocks + [b]) == DataOf(c, blocks) + EncodeBlock(c, b)
  {
    hide EncodeBlock;
    if blocks == [] {
      assert blocks + [b] == [b] && DataOf(c, [b][1..]) == [];
    } else {
      assert (blocks + [b])[1..] == blocks[1..] + [b];
      DataOfSnoc(c, blocks[1..], b);
    }
  }

  lemma {:induction false} IndexOfSnoc(c: Codec, blocks: seq<seq<Entry>>, b: seq<Entry>, offset: nat)
    requires b != [] && forall i :: 0 <= i < |blocks| ==> blocks[i] != []
    ensures IndexOf(c, blocks + [b], offset) == IndexOf(c, blocks, offset) + [IndexEntryOf(c, b, offset + |DataOf(c, blocks)|)]
  {
    hide IndexEntryOf, EncodeBlock;
    if blocks == [] {
      assert blocks + [b] == [b] && IndexOf(c, [b][1..], offset + |EncodeBlock(c, b)|) == [];
    } else {
      assert (blocks + [b])[1..] == blocks[1..] + [b];
      IndexOfSnoc(c, blocks[1..], b, offset + |EncodeBlock(c, blocks[0])|);
    }
  }

  lemma {:induction false} BlockBytes(c: Codec, blocks: seq<seq<Entry>>, offset: nat, i: nat)
    requires i < |blocks| && forall j :: 0 <= j < |blocks| ==> blocks[j] != []
    ensures var e := IndexOf(c, blocks, offset)[i];
            e.firstKey == blocks[i][0].key && Located(DataOf(c, blocks), e, offset, EncodeBlock(c, blocks[i]))
  {
    hide EncodeBlock, BlockPayload, IndexOf, DataOf, Located;
    var n := |blocks| - 1;
    var init, b := blocks[..n], blocks[n];
    assert blocks == init + [b];
    DataOfSnoc(c, init, b);
    IndexOfSnoc(c, init, b, offset);
    var data := DataOf(c, init);
    if i == n {
      LocatedLast(data, EncodeBlock(c, b), IndexEntryOf(c, b, offset + |data|), offset);
    } else {
      BlockBytes(c, init, offset, i);
      LocatedExtends(data, EncodeBlock(c, b), IndexOf(c, init, offset)[i], offset, EncodeBlock(c, blocks[i]));
    }
  }

  lemma LocatedLast(data: Bytes, block: Bytes, e: IndexEntry, offset: nat)
    requires e.offset == offset + |data| && e.size == |block|
    ensures Located(data + block, e, offset, block)
  {
  }

  lemma LocatedExtends(data: Bytes, more: Bytes, e: IndexEntry, offset: nat, block: Bytes)
    requires Located(data, e, offset, block)
    ensures Located(data + more, e, offset, block)
  {
    var x := e.offset - offset;
    SliceInside([], data, more, x, x + e.size);
    assert [] + data + more == data + more;
  }

  lemma FetchesBlock(f: Format, blocks: seq<seq<Entry>>, p: Parts, count: nat, min: Bytes, max: Bytes, i: nat)
    requires ValidFormat(f) && i < |blocks| && forall j :: 0 <= j < |blocks| ==> blocks[j] != []
    requires p.data == DataOf(f.Codec(), blocks) && p.index == IndexOf(f.Codec(), blocks, HEADER_SIZE)
    requires forall e :: e in blocks[i] ==> Encodable(e)
    ensures var h := Handle(FooterOf(p, count, min, max, f.compression), p.filter, p.index);
            ServesBlock(f, FileOfParts(f, p, count, min, max), h, i, blocks[i])
  {
    hide FileOfParts, EncodeBlock, DecodeBlock, IndexOf, DataOf, TruncateKey, ValidFormat, ValidCodec, Encodable, SerializeFilter, SerializeIndex, Located, GetRange;
    FormatCodec(f);
    BlockBytes(f.Codec(), blocks, HEADER_SIZE, i);
    BlockRoundTrip(f.Codec(), blocks[i]);
    var e := p.index[i];
    LocatedInFile(f, p, count, min, max, e, EncodeBlock(f.Codec(), blocks[i]));
  }

  lemma LocatedInFile(f: Format, p: Parts, count: nat, min: Bytes, max: Bytes, e: IndexEntry, block: Bytes)
    requires Located(p.data, e, HEADER_SIZE, block)
    ensures GetRange(FileOfParts(f, p, count, min, max), e.offset, e.size) == Ok(block)
  {
    hide FileOfParts;
    DataInside(f, p, count, min, max, e.offset - HEADER_SIZE, e.offset - HEADER_SIZE + e.size);
  }

  lemma FormatCodec(f: Format)
    requires ValidFormat(f)
    ensures ValidCodec(f.Codec())
  {
  }

  lemma DataInside(f: Format, p: Parts, count: nat, min: Bytes, max: Bytes, x: nat, y: nat)
    requires x <= y <= |p.data|
    ensures var file := FileOfParts(f, p, count, min, max);
            HEADER_SIZE + y <= |file| && file[HEADER_SIZE + x..HEADER_SIZE + y] == p.data[x..y]
  {
    hide EncodeHeader, SerializeFilter, SerializeIndex, EncodeFooter, TruncateKey;
    var rest := p.dedup + SerializeFilter(p.filter) + SerializeIndex(p.index) + EncodeFooter(f.crc, FooterOf(p, count, min, max, f.compression));
    var header := EncodeHeader(f.compression, count);
    assert FileOfParts(f, p, count, min, max) == header + p.data + rest;
    SliceInside(header, p.data, rest, x, y);
  }

  lemma {:induction false} SameIndex(index: seq<IndexEntry>, blocks: seq<seq<Entry>>, k: Bytes)
    requires |index| == |blocks|
    requires forall i :: 0 <= i < |blocks| ==> blocks[i] != [] && index[i].firstKey == blocks[i][0].key
    ensures IndexUpTo(index, k) == BlocksUpTo(blocks, k)
  {
    if blocks != [] {
      assert forall i :: 0 <= i < |blocks[1..]| ==> blocks[1..][i] == blocks[i + 1] && index[1..][i] == index[i + 1];
      SameIndex(index[1..], blocks[1..], k);
    }
  }

  /** An opened file and the blocks it stands for. */
  ghost predicate Serves(f: Format, file: Bytes, h: Handle, t: Table) {
    && h.filter == t.filter
    && |h.index| == |t.blocks|
    && forall i :: 0 <= i < |t.blocks| ==> ServesBlock(f, file, h, i, t.blocks[i])
  }

  ghost predicate ServesBlock(f: Format, file: Bytes, h: Handle, i: nat, b: seq<Entry>) {
    && i < |h.index| && b != [] && h.index[i].firstKey == b[0].key
    && FetchBlock(f, file, h, i) == Ok(b)
  }

  lemma GetServed(f: Format, file: Bytes, h: Handle, t: Table, k: Bytes)
    requires Serves(f, file, h, t)
    ensures FileGet(f, file, h, k) == Ok(Get(f.sst, t, k))
  {
    hide FetchBlock, BlocksUpTo, IndexUpTo;
    assert forall i :: 0 <= i < |t.blocks| ==> ServesBlock(f, file, h, i, t.blocks[i]);
    SameIndex(h.index, t.blocks, k);
    var n := BlocksUpTo(t.blocks, k);
    if n > 0 {
      assert ServesBlock(f, file, h, n - 1, t.blocks[n - 1]);
    }
  }

  lemma {:induction false} ScanFromServed(f: Format, file: Bytes, h: Handle, t: Table, i: nat, first: bool, start: Bytes, end: Option<Bytes>)
    requires Serves(f, file, h, t) && i <= |t.blocks|
    ensures FileScanFrom(f, file, h, i, first, start, end) == Ok(ScanFrom(t.blocks, i, first, start, end))
    decreases |t.blocks| - i
  {
    hide FetchBlock, ScanBlock, BeforeEnd;
    if i < |t.blocks| {
      assert ServesBlock(f, file, h, i, t.blocks[i]);
      ScanFromServed(f, file, h, t, i + 1, false, start, end);
    }
  }

  lemma ScanServed(f: Format, file: Bytes, h: Handle, t: Table, start: Bytes, end: Option<Bytes>)
    requires Serves(f, file, h, t)
    ensures FileScan(f, file, h, start, end) == Ok(Scan(t, start, end))
  {
    hide FetchBlock, FileScanFrom, ScanFrom, IndexUpTo, BlocksUpTo;
    assert forall i :: 0 <= i < |t.blocks| ==> ServesBlock(f, file, h, i, t.blocks[i]);
    SameIndex(h.index, t.blocks, start);
    ScanFromServed(f, file, h, t, StartBlock(t.blocks, start), true, start, end);
  }

  ghost predicate FitsFormat(f: Format, es: seq<Entry>, dedup: Bytes) {
    && (forall e :: e in es ==> Encodable(e))
    && (BlocksNonempty(es, f.sst.blockTarget);
        PartsFit(PartsOf(f, SplitBlocks([], es, f.sst.blockTarget), RecordsOf(es), dedup), |es|))
  }

  /** A written file opens, and its handle serves the table that was written. */
  lemma {:induction false} WrittenFileOpens(f: Format, es: seq<Entry>, dedup: Bytes, id: nat, now: nat) returns (h: Handle)
    requires ValidFormat(f) && es != [] && FitsFormat(f, es, dedup)
    ensures Open(f.crc, FileBytes(f, es, dedup)) == Ok(h)
    ensures Serves(f, FileBytes(f, es, dedup), h, WriteTable(f.sst, id, es, now))
    ensures h.footer.entryCount == |es| && h.footer.compression == f.compression && h.footer.version == 1 && h.footer.dedupSize == |dedup|
    ensures h.footer.minKey == TruncateKey(es[0].key) && h.footer.maxKey == TruncateKey(es[|es| - 1].key)
  {
    hide PartsFit, FileOfParts, Open, ValidFormat, FetchBlock, DataOf, IndexOf, SplitBlocks, BloomFilters.Build;
    BlocksNonempty(es, f.sst.blockTarget);
    SplitBlocksCuts([], es, f.sst.blockTarget);
    var blocks := SplitBlocks([], es, f.sst.blockTarget);
    assert [] + es == es;
    var p := PartsOf(f, blocks, RecordsOf(es), dedup);
    var count, min, max := |es|, es[0].key, es[|es| - 1].key;
    h := Handle(FooterOf(p, count, min, max, f.compression), p.filter, p.index);
    OpensParts(f, p, count, min, max);
    forall i | 0 <= i < |blocks|
      ensures ServesBlock(f, FileBytes(f, es, dedup), h, i, blocks[i])
    {
      forall e | e in blocks[i]
        ensures Encodable(e)
      {
        FlattenMember(blocks, e);
      }
      FetchesBlock(f, blocks, p, count, min, max, i);
    }
  }

  /** SSTables refine sorted maps: in a file written from keys in increasing order, a lookup finds
      exactly the entry of its key and a scan returns exactly the entries in range. */
  lemma {:induction false} FileIsASortedMap(f: Format, es: seq<Entry>, dedup: Bytes, k: Bytes, start: Bytes, end: Option<Bytes>)
    requires ValidFormat(f) && es != [] && KeysIncreasing(es) && FitsFormat(f, es, dedup)
    ensures var file := FileBytes(f, es, dedup);
            && Open(f.crc, file).Ok?
            && FileGet(f, file, Open(f.crc, file).value, k) == Ok(Newest(es, k))
            && FileScan(f, file, Open(f.crc, file).value, start, end) == Ok(Range(es, start, end))
  {
    var t := WriteTable(f.sst, 0, es, 0);
    assert StrictlySorted(es);
    WrittenTable(f.sst, 0, es, 0);
    hide WriteTable, WellFormed, FileBytes, Serves, FitsFormat, Open, FileGet, FileScan, ValidFormat, StrictlySorted;
    var h := WrittenFileOpens(f, es, dedup, 0, 0);
    DistinctKeysNeverSplit(f.sst, t, k);
    GetIsNewestIffNotSplit(f.sst, t, k);
    GetServed(f, FileBytes(f, es, dedup), h, t, k);
    DistinctKeysNeverSplit(f.sst, t, start);
    ScanIsRangeIff(f.sst, t, start, end);
    ScanServed(f, FileBytes(f, es, dedup), h, t, start, end);
  }

  // --- The writer's loop ---

  /** The fields of the writer that a finished block changes. */
  datatype WriteState = WriteState(output: Bytes, index: seq<IndexEntry>, records: set<Bytes>)

  ghost predicate HasWritten(f: Format, w: WriteState, blocks: seq<seq<Entry>>) {
    && (forall i :: 0 <= i < |blocks| ==> blocks[i] != [])
    && |w.output| == HEADER_SIZE + |DataOf(f.Codec(), blocks)|
    && w.output[HEADER_SIZE..] == DataOf(f.Codec(), blocks)
    && w.index == IndexOf(f.Codec(), blocks, HEADER_SIZE)
    && w.records == RecordsOf(Flatten(blocks))
  }

  lemma RecordsAppend(a: seq<Entry>, b: seq<Entry>)
    ensures RecordsOf(a + b) == RecordsOf(a) + RecordsOf(b)
  {
    forall r
      ensures r in RecordsOf(a + b) <==> r in RecordsOf(a) || r in RecordsOf(b)
    {
      if r in RecordsOf(a) {
        var e :| e in a && RecordId(e.key) == r;
        assert e in a + b;
      }
      if r in RecordsOf(b) {
        var e :| e in b && RecordId(e.key) == r;
        assert e in a + b;
      }
    }
  }

  function Flushed(c: Codec, w: WriteState, b: seq<Entry>): WriteState
    requires b != []
  {
    WriteState(w.output + EncodeBlock(c, b), w.index + [IndexEntryOf(c, b, |w.output|)], w.records + RecordsOf(b))
  }

  lemma FlushedWrites(f: Format, w: WriteState, blocks: seq<seq<Entry>>, b: seq<Entry>)
    requires b != [] && HasWritten(f, w, blocks)
    ensures HasWritten(f, Flushed(f.Codec(), w, b), blocks + [b])
  {
    hide EncodeBlock, BlockPayload, RecordsOf, Flatten, DataOf, IndexOf, IndexEntryOf;
    var c := f.Codec();
    DataOfSnoc(c, blocks, b);
    IndexOfSnoc(c, blocks, b, HEADER_SIZE);
    FlattenOneMore(blocks, b);
    RecordsAppend(Flatten(blocks), b);
    AfterHeader(w.output, EncodeBlock(c, b));
  }

  /** `flush_block` */
  method FlushBlock(f: Format, w: WriteState, b: BlockBuilder, ghost blocks: seq<seq<Entry>>) returns (out: WriteState)
    requires b.Valid() && b.added != [] && HasWritten(f, w, blocks)
    ensures HasWritten(f, out, blocks + [b.added])
  {
    hide EncodeBlock, BlockPayload, HasWritten, EncodeAll;
    var block := b.Finish(f.Codec());
    PayloadLength(f.Codec(), b.added);
    assert b.recordsSeen == RecordsOf(b.added);
    out := WriteState(w.output + block.value,
                      w.index + [IndexEntry(b.firstKey.value, |w.output|, |block.value|, |b.buffer| + 4)],
                      w.records + b.recordsSeen);
    assert out == Flushed(f.Codec(), w, b.added);
    FlushedWrites(f, w, blocks, b.added);
  }

  lemma PayloadLength(c: Codec, es: seq<Entry>)
    ensures |BlockPayload(c, es)| == |EncodeAll(es, None)| + 4
  {
  }

  /** `write` and `finish`: blocks as they fill up, then the other parts around them. */
  method WriteFile(f: Format, es: seq<Entry>, dedup: Bytes) returns (r: Result<Bytes>)
    requires forall e :: e in es ==> Encodable(e)
    ensures r == if es == [] then Err(InvalidArgument) else Ok(FileBytes(f, es, dedup))
  {
    hide HasWritten, EncodeAll, Encodable, FileBytes;
    var w := WriteState(seq(HEADER_SIZE, _ => 0), [], {});
    var builder := new BlockBuilder(f.sst.blockTarget);
    ghost var blocks: seq<seq<Entry>> := [];
    NothingWritten(f, w);
    ghost var whole := SplitBlocks([], es, f.sst.blockTarget);
    assert es[0..] == es && [] + whole == whole;
    for i := 0 to |es|
      invariant builder.Valid() && fresh(builder) && builder.target == f.sst.blockTarget
      invariant HasWritten(f, w, blocks)
      invariant whole == blocks + SplitBlocks(builder.added, es[i..], f.sst.blockTarget)
    {
      EntrySizes(es[i]);
      assert es[i..][0] == es[i] && es[i..][1..] == es[i + 1..];
      ghost var current := builder.added;
      builder.AddEntry(es[i]);
      BufferIsEncoding(builder);
      if builder.IsFull() {
        w := FlushBlock(f, w, builder, blocks);
        Regroup(blocks, [builder.added], SplitBlocks([], es[i + 1..], f.sst.blockTarget));
        blocks := blocks + [builder.added];
        builder := new BlockBuilder(f.sst.blockTarget);
      }
    }
    if es == [] {
      return Err(InvalidArgument);
    }
    assert es[|es|..] == [];
    if builder.entryCount > 0 {
      w := FlushBlock(f, w, builder, blocks);
      blocks := blocks + [builder.added];
    }
    assert whole == blocks;
    FinishIsFile(f, es, dedup, w, blocks);
    r := Ok(Finish(f, w, dedup, |es|, es[0].key, es[|es| - 1].key));
  }

  lemma BufferIsEncoding(b: BlockBuilder)
    requires b.Valid()
    ensures |b.buffer| == |EncodeAll(b.added, None)| && b.entryCount == |b.added|
  {
  }

  lemma EntrySizes(e: Entry)
    requires Encodable(e)
    ensures e.seqno < Varints.TWO_64 && |e.key| < Varints.TWO_64 && |e.value| < Varints.TWO_64 && |e.metadata| < Varints.TWO_64
  {
  }

  lemma NothingWritten(f: Format, w: WriteState)
    requires |w.output| == HEADER_SIZE && w.index == [] && w.records == {}
    ensures HasWritten(f, w, [])
  {
  }

  /** `finish`: the parts after the data, the footer, and the header over its placeholder. */
  function Finish(f: Format, w: WriteState, dedup: Bytes, count: nat, min: Bytes, max: Bytes): Bytes
    requires |w.output| >= HEADER_SIZE
  {
    var filter := BloomFilters.Build(f.sst.hash, w.records, f.sst.bitsPerKey);
    var filterBytes, indexBytes := SerializeFilter(filter), SerializeIndex(w.index);
    var filterOffset := |w.output| + |dedup|;
    var indexOffset := filterOffset + |filterBytes|;
    var footer := Footer(filterOffset, |filterBytes|, indexOffset, |indexBytes|, count, TruncateKey(min), TruncateKey(max),
                         f.compression, FORMAT_VERSION, |dedup|);
    var output := w.output + dedup + filterBytes + indexBytes + EncodeFooter(f.crc, footer);
    EncodeHeader(f.compression, count) + output[HEADER_SIZE..]
  }

  lemma FinishIsFile(f: Format, es: seq<Entry>, dedup: Bytes, w: WriteState, blocks: seq<seq<Entry>>)
    requires es != [] && HasWritten(f, w, blocks) && blocks == SplitBlocks([], es, f.sst.blockTarget)
    ensures |w.output| >= HEADER_SIZE
    ensures Finish(f, w, dedup, |es|, es[0].key, es[|es| - 1].key) == FileBytes(f, es, dedup)
  {
    hide Finish, FileOfParts, BloomFilters.Build, DataOf, IndexOf, SplitBlocks, RecordsOf;
    SplitBlocksCuts([], es, f.sst.blockTarget);
    assert [] + es == es;
    FinishIsParts(f, w, PartsOf(f, blocks, RecordsOf(es), dedup), |es|, es[0].key, es[|es| - 1].key);
  }

  lemma FinishIsParts(f: Format, w: WriteState, p: Parts, count: nat, min: Bytes, max: Bytes)
    requires |w.output| == HEADER_SIZE + |p.data| && w.output[HEADER_SIZE..] == p.data
    requires w.index == p.index && p.filter == BloomFilters.Build(f.sst.hash, w.records, f.sst.bitsPerKey)
    ensures Finish(f, w, p.dedup, count, min, max) == FileOfParts(f, p, count, min, max)
  {
    hide EncodeHeader, SerializeFilter, SerializeIndex, EncodeFooter, TruncateKey, BloomFilters.Build;
    var filter, index := SerializeFilter(p.filter), SerializeIndex(p.index);
    var footer := EncodeFooter(f.crc, FooterOf(p, count, min, max, f.compression));
    var rest := p.dedup + filter + index + footer;
    Joined(w.output, p.dedup, filter, index, footer);
    AfterHeader(w.output, rest);
    assert Finish(f, w, p.dedup, count, min, max) == EncodeHeader(f.compression, count) + (p.data + rest);
    Joined(p.data, p.dedup, filter, index, footer);
    Joined3(EncodeHeader(f.compression, count), Body(p), footer);
  }

  lemma AfterHeader(output: Bytes, rest: Bytes)
    requires |output| >= HEADER_SIZE
    ensures (output + rest)[HEADER_SIZE..] == output[HEADER_SIZE..] + rest
  {
  }

  lemma Joined(a: Bytes, b: Bytes, c: Bytes, d: Bytes, e: Bytes)
    ensures a + b + c + d + e == a + (b + c + d + e)
  {
  }

  lemma Joined3(a: Bytes, b: Bytes, c: Bytes)
    ensures a + b + c == a + (b + c)
  {
  }
}
