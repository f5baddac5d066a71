/** SSTable data blocks with record-id elision (crates/flushdb-engine/src/sstable/block_builder.rs
    and block_reader.rs). */
module BlockCodec {
  import opened Wrappers
  import opened ByteStrings
  import opened CompositeKeys
  import opened Entries
  import Varints

  const INLINE_TAG: byte := 0x00
  const BLOB_REF_TAG: byte := 0x01

  /** CRC-32 and the configured compressor, of which only their contracts matter here. */
  datatype Codec = Codec(crc: Bytes -> nat, compress: Bytes -> Bytes, decompress: Bytes -> Result<Bytes>)

  ghost predicate ValidCodec(c: Codec) {
    && (forall b :: c.crc(b) < Pow256(4))
    && (forall b :: c.decompress(c.compress(b)) == Ok(b))
  }

  // --- Writing ---

  /** A length-prefixed byte string. */
  function Framed(b: Bytes): Bytes {
    Varints.Encode(|b|) + b
  }

  function KindByte(t: EntryType): byte {
    match t
    case Put => 0
    case Delete => 1
    case RangeDelete => 2
  }

  /** The record id of an entry, or the one-byte mark that it repeats the previous one. */
  function RecordPart(record: Bytes, last: Option<Bytes>): Bytes {
    if last == Some(record) then Varints.Encode(0) else Framed(record)
  }

  function EncodeEntry(e: Entry, last: Option<Bytes>): Bytes {
    RecordPart(RecordId(e.key), last) + Framed(ItemKey(e.key)) + [INLINE_TAG] + Framed(e.value)
    + Framed(e.metadata) + [KindByte(e.kind)] + Varints.Encode(e.seqno)
  }

  function EncodeAll(es: seq<Entry>, last: Option<Bytes>): Bytes {
    if es == [] then [] else EncodeEntry(es[0], last) + EncodeAll(es[1..], Some(RecordId(es[0].key)))
  }

  function LastRecord(es: seq<Entry>, last: Option<Bytes>): Option<Bytes> {
    if es == [] then last else Some(RecordId(es[|es| - 1].key))
  }

  lemma {:induction false} EncodeAllSnoc(es: seq<Entry>, e: Entry, last: Option<Bytes>)
    ensures EncodeAll(es + [e], last) == EncodeAll(es, last) + EncodeEntry(e, LastRecord(es, last))
  {
    hide EncodeEntry;
    if es == [] {
      assert es + [e] == [e];
      assert EncodeAll([e][1..], Some(RecordId(e.key))) == [];
    } else {
      assert (es + [e])[1..] == es[1..] + [e];
      EncodeAllSnoc(es[1..], e, Some(RecordId(es[0].key)));
    }
  }

  /** The uncompressed block: entries, then their checksum. */
  function BlockPayload(c: Codec, es: seq<Entry>): Bytes {
    EncodeAll(es, None) + ToLe(c.crc(EncodeAll(es, None)), 4)
  }

  function EncodeBlock(c: Codec, es: seq<Entry>): Bytes {
    c.compress(BlockPayload(c, es))
  }

  method EncodeEntryLoop(e: Entry, entryCount: nat, last: Option<Bytes>) returns (out: Bytes)
    requires e.seqno < Varints.TWO_64 && |e.key| < Varints.TWO_64
    requires |e.value| < Varints.TWO_64 && |e.metadata| < Varints.TWO_64
    requires entryCount == 0 ==> last == None
    ensures out == EncodeEntry(e, last)
  {
    hide Varints.Encode, RecordId, ItemKey, KindByte;
    var record, item := RecordId(e.key), ItemKey(e.key);
    PartLengths(e.key);
    if entryCount > 0 && last == Some(record) {
      out := Varints.EncodeInto(0, []);
    } else {
      out := Varints.EncodeInto(|record|, []);
      out := out + record;
    }
    assert out == RecordPart(record, last);
    out := AppendFramed(item, out);
    out := out + [INLINE_TAG];
    out := AppendFramed(e.value, out);
    out := AppendFramed(e.metadata, out);
    out := out + [KindByte(e.kind)];
    out := Varints.EncodeInto(e.seqno, out);
  }

  method AppendFramed(b: Bytes, buf: Bytes) returns (out: Bytes)
    requires |b| < Varints.TWO_64
    ensures out == buf + Framed(b)
  {
    out := Varints.EncodeInto(|b|, buf);
    out := out + b;
  }

  lemma PartLengths(k: Bytes)
    ensures |RecordId(k)| <= |k| && |ItemKey(k)| <= |k|
  {
  }

  class BlockBuilder {
    const target: nat
    var buffer: Bytes
    var entryCount: nat
    var firstKey: Option<Bytes>
    var lastKey: Option<Bytes>
    var lastRecord: Option<Bytes>
    var recordsSeen: set<Bytes>
    ghost var added: seq<Entry>

    ghost predicate Valid()
      reads this
    {
      && buffer == EncodeAll(added, None)
      && entryCount == |added|
      && lastRecord == LastRecord(added, None)
      && firstKey == (if added == [] then None else Some(added[0].key))
      && lastKey == (if added == [] then None else Some(added[|added| - 1].key))
      && recordsSeen == set e | e in added :: RecordId(e.key)
    }

    constructor (target: nat)
      ensures Valid() && added == [] && this.target == target
    {
      this.target := target;
      buffer, entryCount, firstKey, lastKey, lastRecord, recordsSeen, added := [], 0, None, None, None, {}, [];
    }

    method AddEntry(e: Entry)
      requires Valid()
      requires e.seqno < Varints.TWO_64 && |e.key| < Varints.TWO_64
      requires |e.value| < Varints.TWO_64 && |e.metadata| < Varints.TWO_64
      modifies this
      ensures Valid() && added == old(added) + [e]
    {
      hide EncodeEntry, RecordId, EncodeAll;
      var record := RecordId(e.key);
      var encoded := EncodeEntryLoop(e, entryCount, lastRecord);
      EncodeAllSnoc(added, e, None);
      buffer := buffer + encoded;
      recordsSeen := recordsSeen + {record};
      if firstKey == None {
        firstKey := Some(e.key);
      }
      lastKey := Some(e.key);
      lastRecord := Some(record);
      entryCount := entryCount + 1;
      added := added + [e];
    }

    predicate IsFull()
      reads this
    {
      |buffer| >= target
    }

    method Finish(c: Codec) returns (r: Result<Bytes>)
      requires Valid()
      ensures r == if added == [] then Err(InvalidArgument) else Ok(EncodeBlock(c, added))
    {
      if entryCount == 0 {
        return Err(InvalidArgument);
      }
      return Ok(c.compress(buffer + ToLe(c.crc(buffer), 4)));
    }
  }

  // --- Reading ---

  /** A length-prefixed byte string at the cursor, and what follows it. */
  function TakeFramed(buf: Bytes): (r: Result<(Bytes, Bytes)>)
    ensures r.Ok? ==> |r.value.1| < |buf|
  {
    var (len, n) :- Varints.Decode(buf);
    if n + len > |buf| then Err(CorruptedData) else Ok((buf[n..n + len], buf[n + len..]))
  }

  function TakeRecord(buf: Bytes, last: Option<Bytes>): (r: Result<(Bytes, Bytes)>)
    ensures r.Ok? ==> |r.value.1| < |buf|
  {
    var (len, n) :- Varints.Decode(buf);
    if len == 0 then
      if last.None? then Err(CorruptedData) else Ok((last.value, buf[n..]))
    else
      TakeFramed(buf)
  }

  function KindOf(b: byte): Result<EntryType> {
    if b == 0 then Ok(Put) else if b == 1 then Ok(Delete) else if b == 2 then Ok(RangeDelete) else Err(CorruptedData)
  }

  /** A value by its tag; a reference into a blob file reads as the empty value, as the merge
      entries built from it do. */
  function TakeValue(buf: Bytes): (r: Result<(Bytes, Bytes)>)
    ensures r.Ok? ==> |r.value.1| < |buf|
  {
    if buf == [] then Err(CorruptedData)
    else
      var (data, rest) :- TakeFramed(buf[1..]);
      if buf[0] == INLINE_TAG then Ok((data, rest))
      else if buf[0] != BLOB_REF_TAG then Err(CorruptedData)
      else if |data| < 2 || |data| < 14 + FromLe(data[..2]) then Err(CorruptedData)
      else Ok(([], rest))
  }

  function DecodeNext(buf: Bytes, last: Option<Bytes>): (r: Result<(Entry, Bytes, Bytes)>)
    ensures r.Ok? ==> |r.value.2| < |buf|
  {
    var (record, b1) :- TakeRecord(buf, last);
    var (item, b2) :- TakeFramed(b1);
    var key :- ParseKey(Join(record, item));
    var (value, b3) :- TakeValue(b2);
    var (metadata, b4) :- TakeFramed(b3);
    if b4 == [] then Err(CorruptedData)
    else
      var kind :- KindOf(b4[0]);
      var (seqno, n) :- Varints.Decode(b4[1..]);
      Ok((Entry(key, value, metadata, kind, seqno), record, b4[1..][n..]))
  }

  function Prepend(out: seq<Entry>, r: Result<seq<Entry>>): Result<seq<Entry>> {
    if r.Ok? then Ok(out + r.value) else r
  }

  function DecodeAll(buf: Bytes, last: Option<Bytes>): Result<seq<Entry>>
    decreases |buf|
  {
    if buf == [] then Ok([])
    else
      var (e, record, rest) :- DecodeNext(buf, last);
      Prepend([e], DecodeAll(rest, Some(record)))
  }

  function DecodeBlock(c: Codec, raw: Bytes): Result<seq<Entry>> {
    var block :- c.decompress(raw);
    if |block| < 4 then Err(CorruptedData)
    else
      var n := |block| - 4;
      if FromLe(block[n..]) != c.crc(block[..n]) then Err(CrcMismatch) else DecodeAll(block[..n], None)
  }

  /** The block iterator drained into a list. */
  method DecodeBlockLoop(c: Codec, raw: Bytes) returns (r: Result<seq<Entry>>)
    ensures r == DecodeBlock(c, raw)
  {
    var block :- c.decompress(raw);
    if |block| < 4 {
      return Err(CorruptedData);
    }
    var data := block[..|block| - 4];
    if FromLe(block[|block| - 4..]) != c.crc(data) {
      return Err(CrcMismatch);
    }
    r := DecodeAllLoop(data);
  }

  method DecodeAllLoop(data: Bytes) returns (r: Result<seq<Entry>>)
    ensures r == DecodeAll(data, None)
  {
    var out, offset, last := [], 0, None;
    ghost var whole := DecodeAll(data, None);
    assert data[0..] == data;
    assert whole == Prepend([], whole) by {
      assert whole.Ok? ==> [] + whole.value == whole.value;
    }
    hide DecodeNext;
    while offset < |data|
      invariant 0 <= offset <= |data|
      invariant whole == Prepend(out, DecodeAll(data[offset..], last))
    {
      var decoded :- DecodeNext(data[offset..], last);
      var (e, record, rest) := decoded;
      var next := |data| - |rest|;
      RestIsSuffix(data[offset..], last);
      assert data[next..] == rest;
      PrependStep(out, e, DecodeAll(rest, Some(record)));
      out, offset, last := out + [e], next, Some(record);
    }
    assert data[offset..] == [] && out + [] == out;
    return Ok(out);
  }

  lemma PrependStep(out: seq<Entry>, e: Entry, r: Result<seq<Entry>>)
    ensures Prepend(out, Prepend([e], r)) == Prepend(out + [e], r)
  {
    if r.Ok? {
      assert out + ([e] + r.value) == out + [e] + r.value;
    }
  }

  ghost predicate IsSuffix(s: Bytes, t: Bytes) {
    |s| <= |t| && s == t[|t| - |s|..]
  }

  lemma SuffixOfSuffix(a: Bytes, b: Bytes, c: Bytes)
    requires IsSuffix(a, b) && IsSuffix(b, c)
    ensures IsSuffix(a, c)
  {
  }

  lemma FramedSuffix(buf: Bytes)
    ensures TakeFramed(buf).Ok? ==> IsSuffix(TakeFramed(buf).value.1, buf)
  {
    hide Varints.Decode;
  }

  lemma RecordSuffix(buf: Bytes, last: Option<Bytes>)
    ensures TakeRecord(buf, last).Ok? ==> IsSuffix(TakeRecord(buf, last).value.1, buf)
  {
    hide Varints.Decode, TakeFramed;
    FramedSuffix(buf);
  }

  lemma ValueSuffix(buf: Bytes)
    ensures TakeValue(buf).Ok? ==> IsSuffix(TakeValue(buf).value.1, buf)
  {
    hide TakeFramed, FromLe;
    if buf != [] {
      FramedSuffix(buf[1..]);
      if TakeFramed(buf[1..]).Ok? {
        SuffixOfSuffix(TakeFramed(buf[1..]).value.1, buf[1..], buf);
      }
    }
  }

  lemma RestIsSuffix(buf: Bytes, last: Option<Bytes>)
    ensures DecodeNext(buf, last).Ok? ==> IsSuffix(DecodeNext(buf, last).value.2, buf)
  {
    hide Varints.Decode, TakeFramed, TakeRecord, TakeValue, KindOf, ParseKey, Join, IsSuffix;
    if DecodeNext(buf, last).Ok? {
      var b1 := TakeRecord(buf, last).value.1;
      var b2 := TakeFramed(b1).value.1;
      var b3 := TakeValue(b2).value.1;
      var b4 := TakeFramed(b3).value.1;
      RecordSuffix(buf, last);
      FramedSuffix(b1);
      ValueSuffix(b2);
      FramedSuffix(b3);
      SuffixOfSuffix(b2, b1, buf);
      SuffixOfSuffix(b3, b2, buf);
      SuffixOfSuffix(b4, b3, buf);
      var n := Varints.Decode(b4[1..]).value.1;
      DropIsSuffix(b4, n + 1);
      assert b4[1..][n..] == b4[n + 1..];
      SuffixOfSuffix(b4[n + 1..], b4, buf);
    }
  }

  lemma DropIsSuffix(b: Bytes, n: nat)
    requires n <= |b|
    ensures IsSuffix(b[n..], b)
  {
  }

  // --- Round trip ---

  /** What the writer needs of an entry: a composite key with a nonempty record id, and lengths
      and sequence numbers that fit 64 bits. */
  ghost predicate Encodable(e: Entry) {
    && HasSeparator(e.key)
    && RecordId(e.key) != []
    && |e.key| < Varints.TWO_64
    && |e.value| < Varints.TWO_64
    && |e.metadata| < Varints.TWO_64
    && e.seqno < Varints.TWO_64
  }

  lemma TakesFramed(b: Bytes, tail: Bytes)
    requires |b| < Varints.TWO_64
    ensures TakeFramed(Framed(b) + tail) == Ok((b, tail))
  {
    assert Framed(b) + tail == Varints.Encode(|b|) + (b + tail);
    Varints.RoundTrip(|b|, b + tail);
  }

  lemma TakesRecord(record: Bytes, last: Option<Bytes>, tail: Bytes)
    requires 0 < |record| < Varints.TWO_64
    ensures TakeRecord(RecordPart(record, last) + tail, last) == Ok((record, tail))
  {
    if last == Some(record) {
      Varints.RoundTrip(0, tail);
    } else {
      TakesFramed(record, tail);
      assert Framed(record) + tail == Varints.Encode(|record|) + (record + tail);
      Varints.RoundTrip(|record|, record + tail);
    }
  }

  lemma TakesValue(v: Bytes, tail: Bytes)
    requires |v| < Varints.TWO_64
    ensures TakeValue([INLINE_TAG] + Framed(v) + tail) == Ok((v, tail))
  {
    var buf := [INLINE_TAG] + Framed(v) + tail;
    assert buf[1..] == Framed(v) + tail;
    TakesFramed(v, tail);
  }

  lemma {:induction false} DecodesNext(e: Entry, last: Option<Bytes>, tail: Bytes)
    requires Encodable(e)
    ensures DecodeNext(EncodeEntry(e, last) + tail, last) == Ok((e, RecordId(e.key), tail))
  {
    hide Varints.Encode, Varints.Decode, Framed, RecordPart, TakeFramed, TakeRecord, TakeValue, RecordId, ItemKey;
    var record, item := RecordId(e.key), ItemKey(e.key);
    var number := Varints.Encode(e.seqno) + tail;
    var b4 := [KindByte(e.kind)] + number;
    var b3 := Framed(e.metadata) + b4;
    var b2 := [INLINE_TAG] + Framed(e.value) + b3;
    var b1 := Framed(item) + b2;
    var buf := RecordPart(record, last) + b1;
    assert buf == EncodeEntry(e, last) + tail;
    KeyParts(e);
    TakesRecord(record, last, b1);
    TakesFramed(item, b2);
    TakesValue(e.value, b3);
    TakesFramed(e.metadata, b4);
    assert b4[1..] == number;
    Varints.RoundTrip(e.seqno, tail);
    assert number[|Varints.Encode(e.seqno)|..] == tail;
  }

  lemma KeyParts(e: Entry)
    requires Encodable(e)
    ensures e.key == Join(RecordId(e.key), ItemKey(e.key))
    ensures 0 < |RecordId(e.key)| < Varints.TWO_64 && |ItemKey(e.key)| < Varints.TWO_64
    ensures HasSeparator(Join(RecordId(e.key), ItemKey(e.key)))
  {
    SplitJoin(e.key);
  }

  lemma EncodeNonempty(e: Entry, last: Option<Bytes>)
    ensures EncodeEntry(e, last) != []
  {
    assert EncodeEntry(e, last)[|EncodeEntry(e, last)| - |Varints.Encode(e.seqno)|..] == Varints.Encode(e.seqno);
  }

  lemma {:induction false} DecodesAll(es: seq<Entry>, last: Option<Bytes>)
    requires forall e :: e in es ==> Encodable(e)
    ensures DecodeAll(EncodeAll(es, last), last) == Ok(es)
  {
    hide EncodeEntry, DecodeNext, RecordId, Encodable;
    if es != [] {
      var rest := EncodeAll(es[1..], Some(RecordId(es[0].key)));
      DecodesNext(es[0], last, rest);
      DecodesAll(es[1..], Some(RecordId(es[0].key)));
      EncodeNonempty(es[0], last);
      assert es == [es[0]] + es[1..];
    }
  }

  /** Decoding a finished block returns the entries it was built from, record ids restored. */
  lemma {:induction false} BlockRoundTrip(c: Codec, es: seq<Entry>)
    requires ValidCodec(c)
    requires forall e :: e in es ==> Encodable(e)
    ensures DecodeBlock(c, EncodeBlock(c, es)) == Ok(es)
  {
    var body := EncodeAll(es, None);
    var sum := ToLe(c.crc(body), 4);
    LeRoundTrip(c.crc(body), 4);
    assert (body + sum)[..|body|] == body && (body + sum)[|body|..] == sum;
    DecodesAll(es, None);
  }

  // --- Damage ---

  /** A block whose stored checksum is not that of its payload is refused, and so is one too short to
      hold a checksum. */
  lemma DamagedBlockIsRefused(c: Codec, payload: Bytes, stored: nat, short: Bytes)
    requires ValidCodec(c) && stored < Pow256(4) && stored != c.crc(payload) && |short| < 4
    ensures DecodeBlock(c, c.compress(payload + ToLe(stored, 4))) == Err(CrcMismatch)
    ensures DecodeBlock(c, c.compress(short)) == Err(CorruptedData)
  {
    hide ToLe, FromLe, Pow256, DecodeAll;
    LeRoundTrip(stored, 4);
    var block := payload + ToLe(stored, 4);
    assert block[..|block| - 4] == payload && block[|block| - 4..] == ToLe(stored, 4);
  }

  /** The first entry of a block cannot leave out its record id. */
  lemma FirstEntryIsNotElided(tail: Bytes)
    ensures DecodeAll([0] + tail, None) == Err(CorruptedData)
  {
    Varints.RoundTrip(0, tail);
    assert Varints.Encode(0) == [0];
    hide Varints.Decode;
  }
}
