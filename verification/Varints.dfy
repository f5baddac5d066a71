/** Unsigned LEB128 integers (crates/flushdb-engine/src/sstable/varint.rs). */
module Varints {
  import opened Wrappers
  import opened ByteStrings

  const TWO_64: nat := 0x1_0000_0000_0000_0000

  function Pow128(n: nat): (p: nat)
    ensures p >= 1
  {
    if n == 0 then 1 else 128 * Pow128(n - 1)
  }

  /** Seven bits a byte, least significant first, the top bit set on all but the last byte. */
  function Encode(v: nat): (b: Bytes)
    ensures |b| >= 1
  {
    if v < 128 then [v] else [v % 128 + 128] + Encode(v / 128)
  }

  /** One step of the decoding loop: `i` bytes read, their payload in `value`. The shifted payload
      is cut to 64 bits, as the shift of a `u64` cuts it. */
  function DecodeFrom(buf: Bytes, i: nat, value: nat): (r: Result<(nat, nat)>)
    ensures r.Ok? ==> i < r.value.1 <= |buf|
    decreases |buf| - i
  {
    if i >= |buf| || i >= 10 then Err(CorruptedData)
    else
      var next := value + buf[i] % 128 * Pow128(i) % TWO_64;
      if buf[i] < 128 then Ok((next, i + 1)) else DecodeFrom(buf, i + 1, next)
  }

  function Decode(buf: Bytes): (r: Result<(nat, nat)>)
    ensures r.Ok? ==> 0 < r.value.1 <= |buf|
  {
    DecodeFrom(buf, 0, 0)
  }

  function BitLength(v: nat): nat {
    if v == 0 then 0 else 1 + BitLength(v / 2)
  }

  /** `varint_len`: the bit length divided by seven, rounded up. */
  function EncodedLen(v: nat): nat {
    if v == 0 then 1 else (BitLength(v) + 6) / 7
  }

  method EncodeInto(value: nat, buf: Bytes) returns (out: Bytes)
    requires value < TWO_64
    ensures out == buf + Encode(value)
  {
    out := buf;
    var v := value;
    while v >= 128
      invariant out + Encode(v) == buf + Encode(value)
    {
      assert Encode(v) == [v % 128 + 128] + Encode(v / 128);
      ghost var before := out;
      out := out + [v % 128 + 128];
      assert out + Encode(v / 128) == before + Encode(v);
      v := v / 128;
    }
    out := out + [v];
  }

  method DecodeLoop(buf: Bytes) returns (r: Result<(nat, nat)>)
    ensures r == Decode(buf)
  {
    if buf == [] {
      return Err(CorruptedData);
    }
    var value: nat, unit: nat, i := 0, 1, 0;
    while i < |buf|
      invariant 0 <= i <= |buf|
      invariant unit == Pow128(i)
      invariant DecodeFrom(buf, i, value) == Decode(buf)
    {
      if i >= 10 {
        return Err(CorruptedData);
      }
      value := value + buf[i] % 128 * unit % TWO_64;
      if buf[i] < 128 {
        return Ok((value, i + 1));
      }
      unit := 128 * unit;
      i := i + 1;
    }
    return Err(CorruptedData);
  }

  lemma {:induction false} Pow128Bounds(i: nat)
    ensures i <= 9 <==> Pow128(i) < TWO_64
    decreases if i > 10 then i else 0
  {
    if i > 10 {
      Pow128Bounds(i - 1);
    } else {
      assert Pow128(2) == 128 * 128;
      assert Pow128(4) == 128 * 128 * Pow128(2);
      assert Pow128(6) == 128 * 128 * Pow128(4);
      assert Pow128(8) == 128 * 128 * Pow128(6);
      assert Pow128(10) == 128 * 128 * Pow128(8);
    }
  }

  /** Decoding reads back every 64-bit value and exactly its bytes, whatever follows them. */
  lemma {:induction false} RoundTrip(v: nat, tail: Bytes)
    requires v < TWO_64
    ensures Decode(Encode(v) + tail) == Ok((v, |Encode(v)|))
  {
    assert [] + Encode(v) + tail == Encode(v) + tail;
    RoundTripFrom([], v, tail, 0, 1, v);
  }

  lemma {:induction false} RoundTripFrom(done: Bytes, w: nat, tail: Bytes, value: nat, p: nat, total: nat)
    requires p == Pow128(|done|) && total == value + w * p < TWO_64
    requires w > 0 || done == []
    ensures DecodeFrom(done + Encode(w) + tail, |done|, value) == Ok((total, |done| + |Encode(w)|))
    decreases w
  {
    hide DecodeFrom;
    var buf, i := done + Encode(w) + tail, |done|;
    assert i <= 9 by {
      if w > 0 {
        PositiveMultiple(w, p);
        Pow128Bounds(i);
      }
    }
    assert buf[i] == Encode(w)[0];
    assert buf[i] % 128 == w % 128;
    var digit := SplitDigit(w, p);
    DecodeStep(buf, i, value, digit);
    if w >= 128 {
      var next := done + [w % 128 + 128];
      assert buf == next + Encode(w / 128) + tail;
      RoundTripFrom(next, w / 128, tail, value + digit, 128 * p, total);
    }
  }

  lemma DecodeStep(buf: Bytes, i: nat, value: nat, digit: nat)
    requires i < |buf| && i < 10
    requires digit == buf[i] % 128 * Pow128(i) < TWO_64
    ensures DecodeFrom(buf, i, value) == if buf[i] < 128 then Ok((value + digit, i + 1)) else DecodeFrom(buf, i + 1, value + digit)
  {
  }

  lemma PositiveMultiple(w: nat, p: nat)
    requires w > 0
    ensures p <= w * p
  {
  }

  /** The lowest digit's share of a product, and what the higher digits keep. */
  lemma SplitDigit(w: nat, p: nat) returns (digit: nat)
    ensures digit == w % 128 * p
    ensures w * p == digit + w / 128 * (128 * p)
    ensures digit <= w * p
    ensures w < 128 ==> digit == w * p
  {
    digit := w % 128 * p;
    assert w == w % 128 + 128 * (w / 128);
    assert w * p == (w % 128 + 128 * (w / 128)) * p;
  }

  /** The length formula is exact for every 64-bit value, in one to ten bytes. */
  lemma {:induction false} EncodedLenExact(v: nat)
    ensures |Encode(v)| == EncodedLen(v)
  {
    if v >= 128 {
      EncodedLenExact(v / 128);
      BitLengthShift(v);
    } else {
      assert v < 128 ==> BitLength(v) <= 7 by {
        BitLengthSmall(v, 7);
      }
    }
  }

  lemma {:induction false} BitLengthSmall(v: nat, n: nat)
    requires n <= 7 && v < if n == 7 then 128 else if n == 6 then 64 else if n == 5 then 32 else if n == 4 then 16 else if n == 3 then 8 else if n == 2 then 4 else if n == 1 then 2 else 1
    ensures BitLength(v) <= n
  {
    if n > 0 && v > 0 {
      BitLengthSmall(v / 2, n - 1);
    }
  }

  lemma BitLengthShift(v: nat)
    requires v >= 128
    ensures BitLength(v) == 7 + BitLength(v / 128)
  {
    var v1 := v / 2;
    var v2 := v1 / 2;
    var v3 := v2 / 2;
    var v4 := v3 / 2;
    var v5 := v4 / 2;
    var v6 := v5 / 2;
    assert v6 / 2 == v / 128;
    assert BitLength(v) == 1 + BitLength(v1);
    assert BitLength(v1) == 1 + BitLength(v2);
    assert BitLength(v2) == 1 + BitLength(v3);
    assert BitLength(v3) == 1 + BitLength(v4);
    assert BitLength(v4) == 1 + BitLength(v5);
    assert BitLength(v5) == 1 + BitLength(v6);
  }

  /** Ten bytes hold every 64-bit value, and no byte after the tenth changes what is decoded. */
  lemma AtMostTenBytes(v: nat, buf: Bytes)
    ensures v < TWO_64 ==> |Encode(v)| <= 10
    ensures |buf| > 10 ==> Decode(buf) == Decode(buf[..10])
    ensures Decode(buf).Ok? ==> Decode(buf).value.1 <= 10
  {
    if v < TWO_64 {
      RoundTrip(v, []);
      assert Encode(v) + [] == Encode(v);
      DecodesWithinTen(Encode(v), 0, 0);
    }
    DecodesWithinTen(buf, 0, 0);
  }

  lemma {:induction false} DecodesWithinTen(buf: Bytes, i: nat, value: nat)
    ensures DecodeFrom(buf, i, value).Ok? ==> DecodeFrom(buf, i, value).value.1 <= 10
    ensures |buf| > 10 && i <= 10 ==> DecodeFrom(buf, i, value) == DecodeFrom(buf[..10], i, value)
    decreases |buf| - i
  {
    if i < |buf| && i < 10 && buf[i] >= 128 {
      DecodesWithinTen(buf, i + 1, value + buf[i] % 128 * Pow128(i) % TWO_64);
    }
  }

  /** A varint ends with its first byte below 128; a buffer without one among its first ten is refused. */
  lemma {:induction false} EndsAtLowByte(buf: Bytes, i: nat, value: nat)
    requires forall j :: 0 <= j < i && j < |buf| ==> buf[j] >= 128
    ensures DecodeFrom(buf, i, value).Ok? <==> exists n :: i <= n < |buf| && n < 10 && buf[n] < 128
    ensures DecodeFrom(buf, i, value).Ok? ==>
              var n := DecodeFrom(buf, i, value).value.1 - 1; i <= n < |buf| && buf[n] < 128 && forall j :: i <= j < n ==> buf[j] >= 128
    decreases |buf| - i
  {
    if i < |buf| && i < 10 && buf[i] >= 128 {
      EndsAtLowByte(buf, i + 1, value + buf[i] % 128 * Pow128(i) % TWO_64);
    }
  }
}
