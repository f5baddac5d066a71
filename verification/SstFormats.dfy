/** The fixed parts of an SSTable file: index block, filter block and footer
    (crates/flushdb-engine/src/sstable/index_block.rs, bloom_filter.rs and footer.rs). */
module SstFormats {
  import opened Wrappers
  import opened ByteStrings
  import opened CompositeKeys
  import BlockCodec
  import BloomFilters
  import Varints

  const U16: nat := 0x1_0000
  const U32: nat := 0x1_0000_0000
  const U64: nat := 0x1_0000_0000_0000_0000
  const MAGIC: nat := 0x464C_4442
  const FORMAT_VERSION: nat := 1
  const HEADER_SIZE: nat := 16
  const FOOTER_SIZE: nat := 80
  const KEY_PREFIX: nat := 16

  // --- Index block ---

  datatype IndexEntry = IndexEntry(firstKey: Bytes, offset: nat, size: nat, uncompressed: nat)

  predicate IndexFits(e: IndexEntry) {
    HasSeparator(e.firstKey) && |e.firstKey| < U64 && e.offset < U64 && e.size < U32 && e.uncompressed < U32
  }

  function EncodeIndexEntry(e: IndexEntry): Bytes {
    BlockCodec.Framed(e.firstKey) + ToLe(e.offset, 8) + ToLe(e.size, 4) + ToLe(e.uncompressed, 4)
  }

  function EncodeIndexEntries(es: seq<IndexEntry>): Bytes {
    if es == [] then [] else EncodeIndexEntry(es[0]) + EncodeIndexEntries(es[1..])
  }

  function SerializeIndex(es: seq<IndexEntry>): Bytes {
    ToLe(|es|, 4) + EncodeIndexEntries(es)
  }

  function DecodeIndexEntry(data: Bytes): Result<(IndexEntry, Bytes)> {
    if data == [] then Err(CorruptedData)
    else
      var (len, n) :- Varints.Decode(data);
      if n + len + 16 > |data| then Err(CorruptedData)
      else
        var key :- ParseKey(data[n..n + len]);
        var rest := data[n + len..];
        Ok((IndexEntry(key, FromLe(rest[..8]), FromLe(rest[8..12]), FromLe(rest[12..16])), rest[16..]))
  }

  function DecodeIndexEntries(data: Bytes, count: nat): Result<seq<IndexEntry>> {
    if count == 0 then Ok([])
    else
      var (e, rest) :- DecodeIndexEntry(data);
      var es :- DecodeIndexEntries(rest, count - 1);
      Ok([e] + es)
  }

  function DeserializeIndex(data: Bytes): Result<seq<IndexEntry>> {
    if |data| < 4 then Err(CorruptedData) else DecodeIndexEntries(data[4..], FromLe(data[..4]))
  }

  function IndexNumbers(e: IndexEntry, tail: Bytes): Bytes {
    ToLe(e.offset, 8) + ToLe(e.size, 4) + ToLe(e.uncompressed, 4) + tail
  }

  lemma IndexNumbersRead(e: IndexEntry, tail: Bytes)
    requires IndexFits(e)
    ensures var rest := IndexNumbers(e, tail);
            && |rest| == 16 + |tail| && rest[16..] == tail
            && FromLe(rest[..8]) == e.offset && FromLe(rest[8..12]) == e.size && FromLe(rest[12..16]) == e.uncompressed
  {
    hide ToLe, FromLe, Pow256, HasSeparator;
    Pow256Literals();
    LeRoundTrip(e.offset, 8);
    LeRoundTrip(e.size, 4);
    LeRoundTrip(e.uncompressed, 4);
    var rest := IndexNumbers(e, tail);
    assert rest[..8] == ToLe(e.offset, 8) && rest[8..12] == ToLe(e.size, 4) && rest[12..16] == ToLe(e.uncompressed, 4);
  }

  lemma IndexEntryRoundTrip(e: IndexEntry, tail: Bytes)
    requires IndexFits(e)
    ensures DecodeIndexEntry(EncodeIndexEntry(e) + tail) == Ok((e, tail))
  {
    IndexNumbersRead(e, tail);
    var rest, length := IndexNumbers(e, tail), Varints.Encode(|e.firstKey|);
    var data := EncodeIndexEntry(e) + tail;
    assert data == length + (e.firstKey + rest);
    hide ToLe, FromLe, Varints.Encode, Varints.Decode, IndexNumbers, EncodeIndexEntry;
    Varints.RoundTrip(|e.firstKey|, e.firstKey + rest);
    assert data[|length|..|length| + |e.firstKey|] == e.firstKey;
    assert data[|length| + |e.firstKey|..] == rest;
  }

  lemma {:induction false} IndexEntriesRoundTrip(es: seq<IndexEntry>)
    requires forall i :: 0 <= i < |es| ==> IndexFits(es[i])
    ensures DecodeIndexEntries(EncodeIndexEntries(es), |es|) == Ok(es)
  {
    hide EncodeIndexEntry, DecodeIndexEntry, IndexFits;
    if es != [] {
      IndexEntryRoundTrip(es[0], EncodeIndexEntries(es[1..]));
      IndexEntriesRoundTrip(es[1..]);
      assert es == [es[0]] + es[1..];
    }
  }

  lemma IndexRoundTrip(es: seq<IndexEntry>)
    requires |es| < U32 && forall i :: 0 <= i < |es| ==> IndexFits(es[i])
    ensures DeserializeIndex(SerializeIndex(es)) == Ok(es)
  {
    hide ToLe, FromLe, Pow256, EncodeIndexEntries, DecodeIndexEntries, IndexFits;
    Pow256Literals();
    LeRoundTrip(|es|, 4);
    IndexEntriesRoundTrip(es);
    var data := SerializeIndex(es);
    assert data[..4] == ToLe(|es|, 4) && data[4..] == EncodeIndexEntries(es);
  }

  // --- Filter block ---

  /** The low `n` bits of a byte whose bit `j` says whether `base + j` is in the set. */
  function ByteOf(bits: set<nat>, base: nat, n: nat): (b: nat)
    requires n <= 8
  {
    if n == 0 then 0
    else if base + n - 1 in bits then BloomFilters.SetBit(ByteOf(bits, base, n - 1), n - 1)
    else ByteOf(bits, base, n - 1)
  }

  lemma {:induction false} ByteOfExact(bits: set<nat>, base: nat, n: nat, j: nat)
    requires n <= 8
    ensures ByteOf(bits, base, n) < 256
    ensures BloomFilters.TestBit(ByteOf(bits, base, n), j) <==> j < n && base + j in bits
  {
    if n == 0 {
      BloomFilters.ZeroHasNoBits(j);
    } else {
      ByteOfExact(bits, base, n - 1, j);
      assert BloomFilters.Width(8) == 256;
      BloomFilters.SetBitFits(ByteOf(bits, base, n - 1), n - 1, 8);
      BloomFilters.SetBitExact(ByteOf(bits, base, n - 1), n - 1, j);
    }
  }

  function PackedByte(bits: set<nat>, i: nat): byte {
    ByteOfExact(bits, 8 * i, 8, 0);
    ByteOf(bits, 8 * i, 8)
  }

  function PackBits(bits: set<nat>, bytes: nat): (b: Bytes)
    ensures |b| == bytes
  {
    seq(bytes, i requires 0 <= i < bytes => PackedByte(bits, i))
  }

  function UnpackBits(b: Bytes): set<nat> {
    set j | 0 <= j < 8 * |b| && BloomFilters.TestBit(b[j / 8], j % 8)
  }

  lemma PackRoundTrip(bits: set<nat>, bytes: nat)
    requires forall j :: j in bits ==> j < 8 * bytes
    ensures UnpackBits(PackBits(bits, bytes)) == bits
  {
    var b := PackBits(bits, bytes);
    forall j: nat
      ensures j in UnpackBits(b) <==> j in bits
    {
      if j < 8 * bytes {
        ByteOfExact(bits, 8 * (j / 8), 8, j % 8);
      }
    }
  }

  function SerializeFilter(f: BloomFilters.Filter): Bytes {
    [0] + ToLe(f.numBits, 8) + ToLe(f.numHashes, 4) + ToLe(f.numKeys, 8) + PackBits(f.bits, f.numBits / 8)
  }

  function DeserializeFilter(data: Bytes): Result<BloomFilters.Filter> {
    if data == [] then Err(CorruptedData)
    else if data[0] != 0 then Err(CorruptedData)
    else if |data| < 21 then Err(CorruptedData)
    else
      var numBits, bits := FromLe(data[1..9]), data[21..];
      if 8 * |bits| < numBits then Err(CorruptedData)
      else Ok(BloomFilters.Filter(UnpackBits(bits), numBits, FromLe(data[9..13]), FromLe(data[13..21])))
  }

  predicate FilterFits(f: BloomFilters.Filter) {
    && f.numBits < U64 && f.numHashes < U32 && f.numKeys < U64 && f.numBits % 8 == 0
    && forall j :: j in f.bits ==> j < f.numBits
  }

  lemma FilterRoundTrip(f: BloomFilters.Filter)
    requires FilterFits(f)
    ensures DeserializeFilter(SerializeFilter(f)) == Ok(f)
  {
    hide ToLe, FromLe, Pow256, PackBits, UnpackBits;
    Pow256Literals();
    LeRoundTrip(f.numBits, 8);
    LeRoundTrip(f.numHashes, 4);
    LeRoundTrip(f.numKeys, 8);
    PackRoundTrip(f.bits, f.numBits / 8);
    var data := SerializeFilter(f);
    assert data[1..9] == ToLe(f.numBits, 8) && data[9..13] == ToLe(f.numHashes, 4) && data[13..21] == ToLe(f.numKeys, 8);
    assert data[21..] == PackBits(f.bits, f.numBits / 8);
  }

  // --- Footer and header ---

  datatype Footer = Footer(
    filterOffset: nat,
    filterSize: nat,
    indexOffset: nat,
    indexSize: nat,
    entryCount: nat,
    minKey: Bytes,
    maxKey: Bytes,
    compression: byte,
    version: nat,
    dedupSize: nat)

  predicate FooterFits(f: Footer) {
    && f.filterOffset < U64 && f.filterSize < U32 && f.indexOffset < U64 && f.indexSize < U32 && f.entryCount < U64
    && |f.minKey| == KEY_PREFIX && |f.maxKey| == KEY_PREFIX
    && f.compression <= 2 && f.version < U16 && f.dedupSize < U32
  }

  function FooterBody(f: Footer): Bytes {
    ToLe(f.filterOffset, 8) + ToLe(f.filterSize, 4) + ToLe(f.indexOffset, 8) + ToLe(f.indexSize, 4) + ToLe(f.entryCount, 8)
    + f.minKey + f.maxKey + [f.compression, 0] + ToLe(f.version, 2)
  }

  function EncodeFooter(crc: Bytes -> nat, f: Footer): Bytes {
    FooterBody(f) + ToLe(crc(FooterBody(f)), 4) + ToLe(MAGIC, 4) + ToLe(f.dedupSize, 4)
  }

  function DecodeFooter(crc: Bytes -> nat, b: Bytes): Result<Footer> {
    if |b| != FOOTER_SIZE then Err(CorruptedData)
    else if FromLe(b[72..76]) != MAGIC then Err(CorruptedData)
    else if FromLe(b[68..72]) != crc(b[..68]) then Err(CrcMismatch)
    else if b[64] > 2 then Err(CorruptedData)
    else Ok(Footer(FromLe(b[..8]), FromLe(b[8..12]), FromLe(b[12..20]), FromLe(b[20..24]), FromLe(b[24..32]),
                   b[32..48], b[48..64], b[64], FromLe(b[66..68]), FromLe(b[76..80])))
  }

  lemma FooterNumbers(f: Footer)
    requires FooterFits(f)
    ensures FromLe(ToLe(f.filterOffset, 8)) == f.filterOffset && FromLe(ToLe(f.filterSize, 4)) == f.filterSize
    ensures FromLe(ToLe(f.indexOffset, 8)) == f.indexOffset && FromLe(ToLe(f.indexSize, 4)) == f.indexSize
    ensures FromLe(ToLe(f.entryCount, 8)) == f.entryCount && FromLe(ToLe(f.version, 2)) == f.version
    ensures FromLe(ToLe(f.dedupSize, 4)) == f.dedupSize && FromLe(ToLe(MAGIC, 4)) == MAGIC
  {
    hide ToLe, FromLe, Pow256;
    Pow256Literals();
    LeRoundTrip(f.filterOffset, 8);
    LeRoundTrip(f.filterSize, 4);
    LeRoundTrip(f.indexOffset, 8);
    LeRoundTrip(f.indexSize, 4);
    LeRoundTrip(f.entryCount, 8);
    LeRoundTrip(f.version, 2);
    LeRoundTrip(f.dedupSize, 4);
    LeRoundTrip(MAGIC, 4);
  }

  lemma FooterFields(f: Footer)
    requires FooterFits(f)
    ensures var b := FooterBody(f);
            && |b| == 68
            && b[..8] == ToLe(f.filterOffset, 8) && b[8..12] == ToLe(f.filterSize, 4)
            && b[12..20] == ToLe(f.indexOffset, 8) && b[20..24] == ToLe(f.indexSize, 4) && b[24..32] == ToLe(f.entryCount, 8)
            && b[32..48] == f.minKey && b[48..64] == f.maxKey && b[64] == f.compression && b[66..68] == ToLe(f.version, 2)
  {
    hide ToLe;
  }

  lemma FooterRoundTrip(crc: Bytes -> nat, f: Footer)
    requires FooterFits(f) && forall b :: crc(b) < U32
    ensures DecodeFooter(crc, EncodeFooter(crc, f)) == Ok(f) && |EncodeFooter(crc, f)| == FOOTER_SIZE
  {
    FooterNumbers(f);
    FooterFields(f);
    hide ToLe, FromLe, Pow256, FooterBody;
    Pow256Literals();
    var body := FooterBody(f);
    LeRoundTrip(crc(body), 4);
    var b := EncodeFooter(crc, f);
    assert b[..68] == body;
    assert forall i, j :: 0 <= i <= j <= 68 ==> b[i..j] == body[i..j];
    assert b[68..72] == ToLe(crc(body), 4) && b[72..76] == ToLe(MAGIC, 4) && b[76..80] == ToLe(f.dedupSize, 4);
  }

  /** A footer is accepted exactly if it has its size, its magic number, the checksum of its body and a
      known compression. */
  lemma {:induction false} FooterIsChecked(crc: Bytes -> nat, body: Bytes, stored: nat, magic: nat, dedup: Bytes)
    requires |body| == 68 && stored < U32 && magic < U32
    ensures DecodeFooter(crc, body + ToLe(stored, 4) + ToLe(magic, 4) + dedup).Ok? <==>
            |dedup| == 4 && magic == MAGIC && stored == crc(body) && body[64] <= 2
  {
    hide ToLe, FromLe, Pow256;
    Pow256Literals();
    LeRoundTrip(stored, 4);
    LeRoundTrip(magic, 4);
    var b := body + ToLe(stored, 4) + ToLe(magic, 4) + dedup;
    if |dedup| == 4 {
      assert b[..68] == body && b[68..72] == ToLe(stored, 4) && b[72..76] == ToLe(magic, 4);
    }
  }

  /** The first `n` bytes of a key, padded with zeros; the footer keeps 16. */
  function Truncate(k: Bytes, n: nat): (r: Bytes)
    ensures |r| == n
  {
    if n == 0 then [] else if k == [] then [0] + Truncate([], n - 1) else [k[0]] + Truncate(k[1..], n - 1)
  }

  function TruncateKey(k: Bytes): (r: Bytes)
    ensures |r| == KEY_PREFIX
  {
    Truncate(k, KEY_PREFIX)
  }

  predicate MayContainKey(f: Footer, k: Bytes) {
    Le(f.minKey, TruncateKey(k)) && Le(TruncateKey(k), f.maxKey)
  }

  lemma {:induction false} TruncateKeepsOrder(a: Bytes, b: Bytes, n: nat)
    requires Le(a, b)
    ensures Le(Truncate(a, n), Truncate(b, n))
  {
    if n != 0 && a != b {
      if a == [] {
        TruncatedEmptyIsLeast(b, n);
      } else if a[0] == b[0] {
        TruncateKeepsOrder(a[1..], b[1..], n - 1);
        var s, t := Truncate(a, n), Truncate(b, n);
        assert s[1..] == Truncate(a[1..], n - 1) && t[1..] == Truncate(b[1..], n - 1);
      }
    }
  }

  lemma {:induction false} TruncatedEmptyIsLeast(b: Bytes, n: nat)
    ensures Le(Truncate([], n), Truncate(b, n))
  {
    if n != 0 && b != [] {
      TruncatedEmptyIsLeast(b[1..], n - 1);
      var s, t := Truncate([], n), Truncate(b, n);
      assert s[1..] == Truncate([], n - 1) && t[1..] == Truncate(b[1..], n - 1);
    }
  }

  /** The truncated range in the footer never excludes a key of the table. */
  lemma FooterRangeIsSafe(f: Footer, min: Bytes, max: Bytes, k: Bytes)
    requires f.minKey == TruncateKey(min) && f.maxKey == TruncateKey(max) && Le(min, k) && Le(k, max)
    ensures MayContainKey(f, k)
  {
    TruncateKeepsOrder(min, k, KEY_PREFIX);
    TruncateKeepsOrder(k, max, KEY_PREFIX);
  }

  function EncodeHeader(compression: byte, entryCount: nat): (b: Bytes)
    ensures |b| == HEADER_SIZE
  {
    ToLe(MAGIC, 4) + ToLe(FORMAT_VERSION, 2) + [compression, 0] + ToLe(entryCount, 8)
  }
}
