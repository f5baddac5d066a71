/** Log segment files and their replay (crates/flushdb-wal/src/segment_header.rs, segment_reader.rs and
    wal_reader.rs). Files are byte strings, given in order of segment number. */
module WalSegments {
  import opened Wrappers
  import opened ByteStrings
  import opened Entries
  import opened WalEntries

  const HEADER_SIZE: nat := 32
  const MAGIC: Bytes := [0x46, 0x57, 0x41, 0x4C]
  const VERSION: byte := 1

  // --- Headers ---

  datatype Header = Header(segment: nat, start: nat, createdAt: nat)

  function EncodeHeader(h: Header): (b: Bytes)
    ensures |b| == HEADER_SIZE
  {
    MAGIC + [VERSION, 0, 0, 0] + ToLe(h.segment, 8) + ToLe(h.start, 8) + ToLe(h.createdAt, 8)
  }

  /** `SegmentReader::open`: a file that is too short or not a segment is refused. */
  function OpenSegment(data: Bytes): (r: Result<Header>)
    ensures r.Ok? ==> |data| >= HEADER_SIZE
  {
    if |data| < HEADER_SIZE then Err(CorruptedData)
    else if data[..4] != MAGIC then Err(CorruptedData)
    else if data[4] != VERSION then Err(CorruptedData)
    else Ok(Header(FromLe(data[8..16]), FromLe(data[16..24]), FromLe(data[24..32])))
  }

  /** A segment opens with the number, starting sequence and creation time its header was given. */
  lemma OpensWithStart(h: Header, tail: Bytes)
    requires h.start < U64
    ensures OpenSegment(EncodeHeader(h) + tail).Ok?
    ensures OpenSegment(EncodeHeader(h) + tail).value.start == h.start
    ensures h.segment < U64 && h.createdAt < U64 ==> OpenSegment(EncodeHeader(h) + tail) == Ok(h)
  {
    hide ToLe, FromLe, Pow256;
    Pow256Literals();
    LeRoundTrip(h.start, 8);
    if h.segment < U64 && h.createdAt < U64 {
      LeRoundTrip(h.segment, 8);
      LeRoundTrip(h.createdAt, 8);
    }
    var data := EncodeHeader(h) + tail;
    assert data[..4] == MAGIC;
    assert data[8..16] == ToLe(h.segment, 8) && data[16..24] == ToLe(h.start, 8) && data[24..32] == ToLe(h.createdAt, 8);
  }

  /** What opens is a segment: apart from the three reserved bytes it begins with the header it reports. */
  lemma {:induction false} OpensOnlySegments(data: Bytes)
    ensures OpenSegment(data).Ok? <==>
            |data| >= HEADER_SIZE && exists h :: data[..5] == EncodeHeader(h)[..5] && data[8..HEADER_SIZE] == EncodeHeader(h)[8..]
    ensures OpenSegment(data).Ok? ==> var h := OpenSegment(data).value; data[8..HEADER_SIZE] == EncodeHeader(h)[8..] && h.start < U64
  {
    hide ToLe, FromLe, Pow256;
    Pow256Literals();
    HeaderBegins(Header(0, 0, 0));
    if OpenSegment(data).Ok? {
      var h := OpenSegment(data).value;
      LeInverse(data[8..16]);
      LeInverse(data[16..24]);
      LeInverse(data[24..32]);
      HeaderBegins(h);
      assert data[8..HEADER_SIZE] == data[8..16] + data[16..24] + data[24..32];
      assert data[..5] == data[..4] + [data[4]];
      assert data[..5] == EncodeHeader(h)[..5] && data[8..HEADER_SIZE] == EncodeHeader(h)[8..];
    }
    if |data| >= HEADER_SIZE && exists h :: data[..5] == EncodeHeader(h)[..5] && data[8..HEADER_SIZE] == EncodeHeader(h)[8..] {
      var h :| data[..5] == EncodeHeader(h)[..5] && data[8..HEADER_SIZE] == EncodeHeader(h)[8..];
      HeaderBegins(h);
      assert data[..4] == data[..5][..4] && data[4] == data[..5][4];
    }
  }

  lemma HeaderBegins(h: Header)
    ensures EncodeHeader(h)[..5] == MAGIC + [VERSION]
    ensures EncodeHeader(h)[8..] == ToLe(h.segment, 8) + ToLe(h.start, 8) + ToLe(h.createdAt, 8)
  {
    hide ToLe;
  }

  // --- Reading one segment ---

  predicate TailCorruption(data: Bytes, from: nat) {
    from >= |data| || |data| - from < 8 || forall i :: from <= i < |data| ==> data[i] == 0
  }

  /** `next_entry`: the entry at the position and the position after it, or nothing at a torn,
      zero-filled or corrupt tail. */
  function NextEntry(crc: Bytes -> nat, data: Bytes, pos: nat): (r: Result<Option<(WalEntry, nat)>>)
    requires pos <= |data|
    ensures r.Ok? && r.value.Some? ==> pos < r.value.value.1 <= |data|
  {
    var rest := data[pos..];
    if |rest| < 4 then Ok(None)
    else
      var len := FromLe(rest[..4]);
      if len == 0 || |rest| < len + 8 then Ok(None)
      else
        var body := rest[4..4 + len];
        if FromLe(rest[4 + len..8 + len]) == crc(body) then
          var e :- DecodeBody(body);
          Ok(Some((e, pos + len + 8)))
        else if TailCorruption(data, pos + len + 8) then Ok(None) else Err(CrcMismatch)
  }

  /** What a reader delivers before it stops, and the error it stops with, if any. */
  datatype Stream = Stream(entries: seq<WalEntry>, error: Option<Error>) {
    function After(before: seq<WalEntry>): Stream {
      Stream(before + entries, error)
    }

    function Collected(): Result<seq<WalEntry>> {
      if error.Some? then Err(error.value) else Ok(entries)
    }
  }

  function ReadAll(crc: Bytes -> nat, data: Bytes, pos: nat): Stream
    requires pos <= |data|
    decreases |data| - pos
  {
    var next := NextEntry(crc, data, pos);
    if next.Err? then Stream([], Some(next.error))
    else if next.value.None? then Stream([], None)
    else ReadAll(crc, data, next.value.value.1).After([next.value.value.0])
  }

  /** A segment reader over the contents of one file. */
  class SegmentReader {
    const crc: Bytes -> nat
    const data: Bytes
    var position: nat

    ghost predicate Valid()
      reads this
    {
      position <= |data|
    }

    constructor (crc: Bytes -> nat, data: Bytes)
      requires |data| >= HEADER_SIZE
      ensures Valid() && this.crc == crc && this.data == data && position == HEADER_SIZE
    {
      this.crc, this.data, position := crc, data, HEADER_SIZE;
    }

    method Next() returns (r: Result<Option<WalEntry>>)
      requires Valid()
      modifies `position
      ensures Valid()
      ensures var next := NextEntry(crc, data, old(position));
              if next.Err? then r == Err(next.error) && position == old(position)
              else if next.value.None? then r == Ok(None) && position == old(position)
              else r == Ok(Some(next.value.value.0)) && position == next.value.value.1
    {
      var remaining := data[position..];
      if |remaining| < 4 {
        return Ok(None);
      }
      var len := FromLe(remaining[..4]);
      if len == 0 {
        return Ok(None);
      }
      var needed := 4 + len + 4;
      if |remaining| < needed {
        return Ok(None);
      }
      var body := remaining[4..4 + len];
      if FromLe(remaining[4 + len..8 + len]) == crc(body) {
        var e :- DecodeBody(body);
        position := position + needed;
        return Ok(Some(e));
      }
      if TailCorruption(data, position + needed) {
        return Ok(None);
      }
      return Err(CrcMismatch);
    }

    /** `entries` drained: everything up to the end of the log or the first error. */
    method Drain() returns (s: Stream)
      requires Valid()
      modifies `position
      ensures Valid() && s == ReadAll(crc, data, old(position))
    {
      var out := [];
      ghost var whole := ReadAll(crc, data, position);
      assert whole == whole.After([]) by {
        assert [] + whole.entries == whole.entries;
      }
      while true
        invariant Valid()
        invariant whole == ReadAll(crc, data, position).After(out)
        decreases |data| - position
      {
        ghost var at := position;
        hide NextEntry;
        var next := Next();
        if next.Err? {
          assert out + [] == out;
          return Stream(out, Some(next.error));
        }
        if next.value.None? {
          assert out + [] == out;
          return Stream(out, None);
        }
        AfterStep(ReadAll(crc, data, position), out, next.value.value);
        out := out + [next.value.value];
      }
    }
  }

  lemma AfterStep(s: Stream, out: seq<WalEntry>, e: WalEntry)
    ensures s.After([e]).After(out) == s.After(out + [e])
  {
    assert out + ([e] + s.entries) == out + [e] + s.entries;
  }

  // --- Torn tails ---

  /** What a cut in the middle of a write leaves: a proper prefix of an encoded entry. */
  ghost predicate Torn(crc: Bytes -> nat, t: Bytes) {
    t == [] || exists e :: Encodable(e) && t < Encode(crc, e)
  }

  lemma ReadsEntry(crc: Bytes -> nat, pre: Bytes, e: WalEntry, tail: Bytes)
    requires CrcFits(crc) && Encodable(e)
    ensures NextEntry(crc, pre + Encode(crc, e) + tail, |pre|) == Ok(Some((e, |pre| + |Encode(crc, e)|)))
  {
    hide ToLe, FromLe, Pow256, Body, DecodeBody;
    BodyLength(e);
    BodyRoundTrip(e);
    Pow256Literals();
    var body, len := Body(e), BodySize(e);
    LeRoundTrip(len, 4);
    LeRoundTrip(crc(body), 4);
    var data := pre + Encode(crc, e) + tail;
    var rest := data[|pre|..];
    assert rest == Encode(crc, e) + tail;
    assert rest[..4] == ToLe(len, 4);
    assert rest[4..4 + len] == body;
    assert rest[4 + len..8 + len] == ToLe(crc(body), 4);
  }

  lemma StopsAtTorn(crc: Bytes -> nat, pre: Bytes, t: Bytes)
    requires CrcFits(crc) && Torn(crc, t)
    ensures NextEntry(crc, pre + t, |pre|) == Ok(None)
  {
    hide ToLe, FromLe, Pow256, Body, DecodeBody, BodySize;
    assert (pre + t)[|pre|..] == t;
    if |t| >= 4 {
      var e :| Encodable(e) && t < Encode(crc, e);
      EncodedLength(crc, e);
      Pow256Literals();
      LeRoundTrip(BodySize(e), 4);
      assert t[..4] == Encode(crc, e)[..4] == ToLe(BodySize(e), 4);
    }
  }

  /** Whole entries are delivered, and reading goes on behind them. */
  lemma {:induction false} ReadsOn(crc: Bytes -> nat, pre: Bytes, es: seq<WalEntry>, tail: Bytes)
    requires CrcFits(crc) && AllEncodable(es)
    ensures var done := pre + EncodeAll(crc, es);
            ReadAll(crc, done + tail, |pre|) == ReadAll(crc, done + tail, |done|).After(es)
    decreases |es|
  {
    hide Encode, NextEntry, Encodable;
    var done := pre + EncodeAll(crc, es);
    var after := ReadAll(crc, done + tail, |done|);
    if es == [] {
      assert done == pre && [] + after.entries == after.entries;
    } else {
      var e, rest := es[0], EncodeAll(crc, es[1..]);
      assert done + tail == pre + Encode(crc, e) + (rest + tail);
      ReadsEntry(crc, pre, e, rest + tail);
      assert done == (pre + Encode(crc, e)) + rest;
      ReadsOn(crc, pre + Encode(crc, e), es[1..], tail);
      assert es == [e] + es[1..];
      assert [e] + (es[1..] + after.entries) == es + after.entries;
    }
  }

  /** Reading back entries followed by a torn tail gives the entries and no error. */
  lemma {:induction false} ReadsBack(crc: Bytes -> nat, pre: Bytes, es: seq<WalEntry>, t: Bytes)
    requires CrcFits(crc) && AllEncodable(es) && Torn(crc, t)
    ensures ReadAll(crc, pre + EncodeAll(crc, es) + t, |pre|) == Stream(es, None)
  {
    hide NextEntry, Torn, Encodable, EncodeAll;
    ReadsOn(crc, pre, es, t);
    StopsAtTorn(crc, pre + EncodeAll(crc, es), t);
    assert es + [] == es;
  }

  // --- Damage ---

  /** A framed body: its length, the body, and the checksum stored with it. */
  function Frame(body: Bytes, stored: nat): Bytes {
    ToLe(|body|, 4) + body + ToLe(stored, 4)
  }

  predicate AllZero(b: Bytes) {
    forall i :: 0 <= i < |b| ==> b[i] == 0
  }

  lemma FrameReads(crc: Bytes -> nat, pre: Bytes, body: Bytes, stored: nat, rest: Bytes)
    requires 0 < |body| < U32 && stored < U32
    ensures NextEntry(crc, pre + Frame(body, stored) + rest, |pre|) ==
            if stored != crc(body) then if |rest| < 8 || AllZero(rest) then Ok(None) else Err(CrcMismatch)
            else if DecodeBody(body).Err? then Err(DecodeBody(body).error)
            else Ok(Some((DecodeBody(body).value, |pre| + |body| + 8)))
  {
    hide ToLe, FromLe, Pow256, DecodeBody;
    Pow256Literals();
    LeRoundTrip(|body|, 4);
    LeRoundTrip(stored, 4);
    var data, n := pre + Frame(body, stored) + rest, |body|;
    var left := data[|pre|..];
    assert left == Frame(body, stored) + rest;
    assert left[..4] == ToLe(n, 4) && left[4..4 + n] == body && left[4 + n..8 + n] == ToLe(stored, 4);
    assert data[|pre| + n + 8..] == rest;
    TailIsRest(data, |pre| + n + 8);
    hide TailCorruption, AllZero;
  }

  lemma TailIsRest(data: Bytes, at: nat)
    requires at <= |data|
    ensures TailCorruption(data, at) <==> |data[at..]| < 8 || AllZero(data[at..])
  {
    var rest := data[at..];
    assert forall i :: at <= i < |data| ==> data[i] == rest[i - at];
    assert forall i :: 0 <= i < |rest| ==> rest[i] == data[at + i];
  }

  /** Damage in the middle of a segment is an error; damage at its end is the end of the log. Whole
      entries, then a body whose stored checksum is not its checksum: if at least eight bytes follow and
      they are not all zero, the entries before it and a checksum error; otherwise just the entries. */
  lemma {:induction false} DamageIsReported(crc: Bytes -> nat, pre: Bytes, es: seq<WalEntry>, body: Bytes, stored: nat, rest: Bytes)
    requires CrcFits(crc) && AllEncodable(es) && 0 < |body| < U32 && stored < U32 && stored != crc(body)
    ensures ReadAll(crc, pre + EncodeAll(crc, es) + Frame(body, stored) + rest, |pre|)
            == Stream(es, if |rest| >= 8 && !AllZero(rest) then Some(CrcMismatch) else None)
  {
    hide NextEntry, Encodable, EncodeAll, Frame, AllZero;
    var done := pre + EncodeAll(crc, es);
    assert done + Frame(body, stored) + rest == done + (Frame(body, stored) + rest);
    ReadsOn(crc, pre, es, Frame(body, stored) + rest);
    FrameReads(crc, done, body, stored, rest);
    assert es + [] == es;
  }

  /** A body with its own checksum that is no entry is an error wherever it stands. */
  lemma {:induction false} NonsenseIsReported(crc: Bytes -> nat, pre: Bytes, es: seq<WalEntry>, body: Bytes, rest: Bytes)
    requires CrcFits(crc) && AllEncodable(es) && 0 < |body| < U32 && forall e :: Encodable(e) ==> !(Body(e) <= body)
    ensures ReadAll(crc, pre + EncodeAll(crc, es) + Frame(body, crc(body)) + rest, |pre|).entries == es
    ensures ReadAll(crc, pre + EncodeAll(crc, es) + Frame(body, crc(body)) + rest, |pre|).error.Some?
  {
    var done := pre + EncodeAll(crc, es);
    NoEntryNoDecode(body);
    hide NextEntry, Encodable, EncodeAll, Frame, DecodeBody, Body;
    assert done + Frame(body, crc(body)) + rest == done + (Frame(body, crc(body)) + rest);
    ReadsOn(crc, pre, es, Frame(body, crc(body)) + rest);
    FrameReads(crc, done, body, crc(body), rest);
    assert es + [] == es;
  }

  lemma NoEntryNoDecode(body: Bytes)
    requires |body| < U32 && forall e :: Encodable(e) ==> !(Body(e) <= body)
    ensures DecodeBody(body).Err?
  {
    hide Body, DecodeBody;
    if DecodeBody(body).Ok? {
      BodyInverse(body);
      BodyLength(DecodeBody(body).value);
      assert false;
    }
  }

  /** Zero padding ends a segment. */
  lemma {:induction false} PaddingEnds(crc: Bytes -> nat, pre: Bytes, es: seq<WalEntry>, padding: Bytes)
    requires CrcFits(crc) && AllEncodable(es) && AllZero(padding)
    ensures ReadAll(crc, pre + EncodeAll(crc, es) + padding, |pre|) == Stream(es, None)
  {
    hide Encodable, EncodeAll;
    var done := pre + EncodeAll(crc, es);
    ReadsOn(crc, pre, es, padding);
    assert (done + padding)[|done|..] == padding;
    if |padding| >= 4 {
      ZeroLength(padding[..4]);
    }
    assert es + [] == es;
  }

  lemma {:induction false} ZeroLength(b: Bytes)
    requires AllZero(b)
    ensures FromLe(b) == 0
  {
    if b != [] {
      ZeroLength(b[1..]);
    }
  }

  /** A cut anywhere in a run of entries leaves whole entries and a torn tail, and loses no entry
      that lies before the cut. */
  lemma {:induction false} CutLeavesPrefix(crc: Bytes -> nat, es: seq<WalEntry>, cut: nat) returns (k: nat, t: Bytes)
    requires AllEncodable(es) && cut <= |EncodeAll(crc, es)|
    ensures k <= |es| && Torn(crc, t)
    ensures EncodeAll(crc, es)[..cut] == EncodeAll(crc, es[..k]) + t
    ensures forall m :: 0 <= m <= |es| && |EncodeAll(crc, es[..m])| <= cut ==> m <= k
    decreases |es|
  {
    hide Encode, Torn;
    if es == [] {
      k, t := 0, [];
      NothingIsTorn(crc);
    } else {
      var head, rest := Encode(crc, es[0]), es[1..];
      if cut < |head| {
        k, t := 0, head[..cut];
        CutHead(crc, es, cut);
      } else {
        k, t := CutLeavesPrefix(crc, rest, cut - |head|);
        CutRest(crc, es, cut, k, t);
        k := k + 1;
      }
    }
  }

  lemma NothingIsTorn(crc: Bytes -> nat)
    ensures Torn(crc, [])
  {
  }

  lemma CutHead(crc: Bytes -> nat, es: seq<WalEntry>, cut: nat)
    requires AllEncodable(es) && es != [] && cut < |Encode(crc, es[0])|
    ensures Torn(crc, Encode(crc, es[0])[..cut]) && EncodeAll(crc, es)[..cut] == EncodeAll(crc, es[..0]) + Encode(crc, es[0])[..cut]
    ensures forall m :: 0 < m <= |es| ==> |EncodeAll(crc, es[..m])| > cut
  {
    hide Encode;
    var head := Encode(crc, es[0]);
    assert head[..cut] < head && Encodable(es[0]);
    assert EncodeAll(crc, es)[..cut] == head[..cut] == EncodeAll(crc, es[..0]) + head[..cut];
    forall m | 0 < m <= |es|
      ensures |EncodeAll(crc, es[..m])| > cut
    {
      assert es[..m][0] == es[0];
    }
  }

  lemma CutRest(crc: Bytes -> nat, es: seq<WalEntry>, cut: nat, k: nat, t: Bytes)
    requires es != [] && |Encode(crc, es[0])| <= cut <= |EncodeAll(crc, es)| && k < |es|
    requires EncodeAll(crc, es[1..])[..cut - |Encode(crc, es[0])|] == EncodeAll(crc, es[1..][..k]) + t
    requires forall m :: 0 <= m <= |es| - 1 && |EncodeAll(crc, es[1..][..m])| <= cut - |Encode(crc, es[0])| ==> m <= k
    ensures EncodeAll(crc, es)[..cut] == EncodeAll(crc, es[..k + 1]) + t
    ensures forall m :: 0 <= m <= |es| && |EncodeAll(crc, es[..m])| <= cut ==> m <= k + 1
  {
    hide Encode, EncodeAll;
    var head, rest := Encode(crc, es[0]), EncodeAll(crc, es[1..]);
    HeadFirst(crc, es);
    HeadOfPrefix(crc, es, k + 1);
    assert (head + rest)[..cut] == head + rest[..cut - |head|];
    assert head + (EncodeAll(crc, es[1..][..k]) + t) == (head + EncodeAll(crc, es[1..][..k])) + t;
    forall m | 0 < m <= |es| && |EncodeAll(crc, es[..m])| <= cut
      ensures m <= k + 1
    {
      HeadOfPrefix(crc, es, m);
    }
  }

  lemma HeadFirst(crc: Bytes -> nat, es: seq<WalEntry>)
    requires es != []
    ensures EncodeAll(crc, es) == Encode(crc, es[0]) + EncodeAll(crc, es[1..])
  {
  }

  lemma HeadOfPrefix(crc: Bytes -> nat, es: seq<WalEntry>, m: nat)
    requires 0 < m <= |es|
    ensures EncodeAll(crc, es[..m]) == Encode(crc, es[0]) + EncodeAll(crc, es[1..][..m - 1])
  {
    hide Encode;
    HeadFirst(crc, es[..m]);
    assert es[..m][1..] == es[1..][..m - 1];
  }
}
