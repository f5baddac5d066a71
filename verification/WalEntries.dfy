/** The byte form of write-ahead log entries (crates/flushdb-wal/src/entry.rs). */
module WalEntries {
  import opened Wrappers
  import opened ByteStrings
  import opened Entries

  const U16: nat := 0x1_0000
  const U32: nat := 0x1_0000_0000
  const U64: nat := 0x1_0000_0000_0000_0000
  const FIXED_BODY: nat := 45
  const TOKEN_SIZE: nat := 24

  datatype WalEntry = WalEntry(
    seqno: nat,
    kind: EntryType,
    namespace: Bytes,
    record: Bytes,
    item: Bytes,
    value: Bytes,
    metadata: Bytes,
    token: Bytes)

  ghost predicate CrcFits(crc: Bytes -> nat) {
    forall b :: crc(b) < U32
  }

  // --- Writing ---

  function KindByte(t: EntryType): byte {
    match t
    case Put => 0
    case Delete => 1
    case RangeDelete => 2
  }

  /** A field behind its little-endian length of `width` bytes. */
  function Sized(b: Bytes, width: nat): Bytes {
    ToLe(|b|, width) + b
  }

  function Body(e: WalEntry): Bytes {
    ToLe(e.seqno, 8) + [KindByte(e.kind)] + Sized(e.namespace, 2) + Sized(e.record, 2) + Sized(e.item, 2)
    + Sized(e.value, 4) + Sized(e.metadata, 2) + e.token
  }

  /** `body_size` */
  function BodySize(e: WalEntry): nat {
    FIXED_BODY + |e.namespace| + |e.record| + |e.item| + |e.value| + |e.metadata|
  }

  function Encode(crc: Bytes -> nat, e: WalEntry): Bytes {
    ToLe(BodySize(e), 4) + Body(e) + ToLe(crc(Body(e)), 4)
  }

  /** `append_batch` writes the entries one after the other. */
  function EncodeAll(crc: Bytes -> nat, es: seq<WalEntry>): Bytes {
    if es == [] then [] else Encode(crc, es[0]) + EncodeAll(crc, es[1..])
  }

  /** Every field fits its length prefix. */
  predicate Encodable(e: WalEntry) {
    && e.seqno < U64
    && |e.namespace| < U16 && |e.record| < U16 && |e.item| < U16 && |e.value| < U32 && |e.metadata| < U16
    && |e.token| == TOKEN_SIZE
    && BodySize(e) < U32
  }

  predicate AllEncodable(es: seq<WalEntry>) {
    forall i :: 0 <= i < |es| ==> Encodable(es[i])
  }

  // --- Reading ---

  function TakeSized(buf: Bytes, width: nat): Result<(Bytes, Bytes)> {
    if |buf| < width then Err(CorruptedData)
    else
      var len := FromLe(buf[..width]);
      if width + len > |buf| then Err(CorruptedData) else Ok((buf[width..width + len], buf[width + len..]))
  }

  function KindOf(b: byte): Result<EntryType> {
    if b == 0 then Ok(Put) else if b == 1 then Ok(Delete) else if b == 2 then Ok(RangeDelete) else Err(CorruptedData)
  }

  /** `decode_body` */
  function DecodeBody(body: Bytes): Result<WalEntry> {
    if |body| < FIXED_BODY then Err(CorruptedData)
    else
      var seqno := FromLe(body[..8]);
      var kind :- KindOf(body[8]);
      var (namespace, b1) :- TakeSized(body[9..], 2);
      var (record, b2) :- TakeSized(b1, 2);
      var (item, b3) :- TakeSized(b2, 2);
      var (value, b4) :- TakeSized(b3, 4);
      var (metadata, b5) :- TakeSized(b4, 2);
      if |b5| < TOKEN_SIZE then Err(CorruptedData)
      else Ok(WalEntry(seqno, kind, namespace, record, item, value, metadata, b5[..TOKEN_SIZE]))
  }

  // --- Round trip ---

  lemma TakesSized(b: Bytes, width: nat, tail: Bytes)
    requires |b| < Pow256(width)
    ensures TakeSized(Sized(b, width) + tail, width) == Ok((b, tail))
  {
    LeRoundTrip(|b|, width);
    var buf := Sized(b, width) + tail;
    assert buf[..width] == ToLe(|b|, width);
    assert buf[width..width + |b|] == b && buf[width + |b|..] == tail;
  }

  lemma BodyLength(e: WalEntry)
    requires |e.token| == TOKEN_SIZE
    ensures |Body(e)| == BodySize(e)
  {
    hide ToLe;
  }

  /** A body decodes to the entry it was written from. */
  lemma BodyRoundTrip(e: WalEntry)
    requires Encodable(e)
    ensures DecodeBody(Body(e)) == Ok(e)
  {
    hide ToLe, FromLe, Pow256, Sized, TakeSized;
    BodyLength(e);
    Pow256Literals();
    var s5 := Sized(e.metadata, 2) + e.token;
    var s4 := Sized(e.value, 4) + s5;
    var s3 := Sized(e.item, 2) + s4;
    var s2 := Sized(e.record, 2) + s3;
    var s1 := Sized(e.namespace, 2) + s2;
    var body := Body(e);
    assert body == ToLe(e.seqno, 8) + ([KindByte(e.kind)] + s1);
    TakesSized(e.namespace, 2, s2);
    TakesSized(e.record, 2, s3);
    TakesSized(e.item, 2, s4);
    TakesSized(e.value, 4, s5);
    TakesSized(e.metadata, 2, e.token);
    LeRoundTrip(e.seqno, 8);
    assert body[..8] == ToLe(e.seqno, 8) && body[8] == KindByte(e.kind) && body[9..] == s1;
    assert e.token[..TOKEN_SIZE] == e.token;
  }

  lemma TakesInverse(buf: Bytes, width: nat)
    requires TakeSized(buf, width).Ok?
    ensures var (b, rest) := TakeSized(buf, width).value; buf == Sized(b, width) + rest && |b| < Pow256(width)
  {
    LeInverse(buf[..width]);
    hide ToLe, FromLe, Pow256;
    var (b, rest) := TakeSized(buf, width).value;
    assert buf == buf[..width] + b + rest;
  }

  /** What decodes was written that way: the body begins with the byte form of the entry it decodes to. */
  lemma {:induction false} BodyInverse(body: Bytes)
    requires DecodeBody(body).Ok?
    ensures var e := DecodeBody(body).value;
            && Body(e) <= body
            && e.seqno < U64 && |e.namespace| < U16 && |e.record| < U16 && |e.item| < U16 && |e.value| < U32 && |e.metadata| < U16
            && |e.token| == TOKEN_SIZE
  {
    hide ToLe, FromLe, Pow256, Sized, TakeSized;
    Pow256Literals();
    var e := DecodeBody(body).value;
    var (namespace, b1) := TakeSized(body[9..], 2).value;
    var (record, b2) := TakeSized(b1, 2).value;
    var (item, b3) := TakeSized(b2, 2).value;
    var (value, b4) := TakeSized(b3, 4).value;
    var (metadata, b5) := TakeSized(b4, 2).value;
    LeInverse(body[..8]);
    TakesInverse(body[9..], 2);
    TakesInverse(b1, 2);
    TakesInverse(b2, 2);
    TakesInverse(b3, 4);
    TakesInverse(b4, 2);
    KindInverse(body[8]);
    var rest := b5[TOKEN_SIZE..];
    assert b5 == e.token + rest;
    assert body == body[..8] + [body[8]] + body[9..];
    assert body == Body(e) + rest;
  }

  lemma KindInverse(b: byte)
    requires KindOf(b).Ok?
    ensures KindByte(KindOf(b).value) == b
  {
  }

  lemma EncodedLength(crc: Bytes -> nat, e: WalEntry)
    requires |e.token| == TOKEN_SIZE
    ensures |Encode(crc, e)| == BodySize(e) + 8
  {
    BodyLength(e);
    hide Body;
  }

  lemma {:induction false} EncodeAllAppend(crc: Bytes -> nat, a: seq<WalEntry>, b: seq<WalEntry>)
    ensures EncodeAll(crc, a + b) == EncodeAll(crc, a) + EncodeAll(crc, b)
  {
    hide Encode;
    if a == [] {
      assert a + b == b;
    } else {
      assert (a + b)[1..] == a[1..] + b;
      EncodeAllAppend(crc, a[1..], b);
    }
  }

  /** The loop of `append_batch` over one output buffer. */
  method EncodeBatch(crc: Bytes -> nat, es: seq<WalEntry>) returns (buf: Bytes)
    ensures buf == EncodeAll(crc, es)
  {
    hide Encode;
    buf := [];
    for i := 0 to |es|
      invariant buf == EncodeAll(crc, es[..i])
    {
      EncodeAllAppend(crc, es[..i], [es[i]]);
      assert es[..i + 1] == es[..i] + [es[i]];
      assert EncodeAll(crc, [es[i]][1..]) == [];
      buf := buf + Encode(crc, es[i]);
    }
    assert es[..|es|] == es;
  }
}
