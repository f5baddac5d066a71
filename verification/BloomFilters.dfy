/** The Bloom filter over record ids (crates/flushdb-engine/src/sstable/bloom_filter.rs).
    MurmurHash3 is a parameter: any function to pairs of 64-bit words. */
module BloomFilters {
  import opened Wrappers
  import opened ByteStrings

  const TWO_64: nat := 0x1_0000_0000_0000_0000
  const LN_2: real := 0.6931471805599453

  type Hash = Bytes -> (nat, nat)

  /** The bit array as the set of its one bits. */
  datatype Filter = Filter(bits: set<nat>, numBits: nat, numHashes: nat, numKeys: nat)

  /** Double hashing with wrapping 64-bit arithmetic. */
  function BitIndex(h: (nat, nat), k: nat, numBits: nat): (j: nat)
    requires numBits > 0
    ensures j < numBits
  {
    (h.0 + k * h.1 % TWO_64) % TWO_64 % numBits
  }

  function BitsFor(hash: Hash, records: set<Bytes>, numBits: nat, numHashes: nat): set<nat>
    requires numBits > 0
  {
    set r, k | r in records && 0 <= k < numHashes :: BitIndex(hash(r), k, numBits)
  }

  function NumBits(n: nat, bitsPerKey: nat): (m: nat)
    ensures m >= 64 && m % 8 == 0
  {
    var wanted := if n * bitsPerKey < 64 then 64 else n * bitsPerKey;
    (wanted + 7) / 8 * 8
  }

  function NumHashes(n: nat, numBits: nat): (k: nat)
    requires n > 0
    ensures k >= 1
  {
    var k := ((numBits / n) as real * LN_2).Floor;
    if k < 1 then 1 else k
  }

  function Build(hash: Hash, records: set<Bytes>, bitsPerKey: nat): Filter {
    var n := |records|;
    if n == 0 then Filter({}, 64, 1, 0)
    else
      var numBits := NumBits(n, bitsPerKey);
      var numHashes := NumHashes(n, numBits);
      Filter(BitsFor(hash, records, numBits, numHashes), numBits, numHashes, n)
  }

  predicate MaybeContains(hash: Hash, f: Filter, record: Bytes) {
    f.numKeys != 0 && f.numBits != 0
    && forall k :: 0 <= k < f.numHashes ==> BitIndex(hash(record), k, f.numBits) in f.bits
  }

  /** A record that was added is never reported absent. */
  lemma NoFalseNegatives(hash: Hash, records: set<Bytes>, bitsPerKey: nat, r: Bytes)
    requires r in records
    ensures MaybeContains(hash, Build(hash, records, bitsPerKey), r)
  {
    assert records != {};
  }

  /** Some added record sets the bit. */
  ghost predicate SetByAdded(hash: Hash, records: set<Bytes>, f: Filter, bit: nat)
    requires f.numBits > 0
  {
    exists a, j :: a in records && 0 <= j < f.numHashes && BitIndex(hash(a), j, f.numBits) == bit
  }

  /** A record passes exactly when every bit it probes is a bit of some added record. */
  lemma PassesIff(hash: Hash, records: set<Bytes>, bitsPerKey: nat, r: Bytes)
    ensures var f := Build(hash, records, bitsPerKey);
            && f.numBits > 0
            && (MaybeContains(hash, f, r) <==>
                  records != {} && forall k :: 0 <= k < f.numHashes ==> SetByAdded(hash, records, f, BitIndex(hash(r), k, f.numBits)))
  {
    var f := Build(hash, records, bitsPerKey);
    if records != {} {
      forall bit
        ensures bit in f.bits <==> SetByAdded(hash, records, f, bit)
      {
      }
    }
  }

  /** The dimensions of a filter: the wanted number of bits, at least 64, rounded up to whole bytes, and
      as many probes as ln 2 times the bits to a key, at least one. */
  lemma FilterDimensions(hash: Hash, records: set<Bytes>, bitsPerKey: nat)
    requires records != {}
    ensures var f, n := Build(hash, records, bitsPerKey), |records|; var wanted := if n * bitsPerKey < 64 then 64 else n * bitsPerKey;
            && f.numKeys == n && f.numBits % 8 == 0 && wanted <= f.numBits < wanted + 8
            && f.numHashes >= 1
            && (f.numHashes as real > (f.numBits / n) as real * LN_2 - 1.0)
            && (f.numHashes == 1 || f.numHashes as real <= (f.numBits / n) as real * LN_2)
  {
  }

  // --- The bit array in place ---

  /** `b & (1 << i) != 0` */
  predicate TestBit(b: nat, i: nat) {
    if i == 0 then b % 2 == 1 else TestBit(b / 2, i - 1)
  }

  /** `b | (1 << i)` */
  function SetBit(b: nat, i: nat): nat {
    if i == 0 then b / 2 * 2 + 1 else SetBit(b / 2, i - 1) * 2 + b % 2
  }

  lemma {:induction false} SetBitExact(b: nat, i: nat, j: nat)
    ensures TestBit(SetBit(b, i), j) <==> i == j || TestBit(b, j)
  {
    if i > 0 && j > 0 {
      SetBitExact(b / 2, i - 1, j - 1);
    }
  }

  lemma {:induction false} ZeroHasNoBits(i: nat)
    ensures !TestBit(0, i)
  {
    if i > 0 {
      ZeroHasNoBits(i - 1);
    }
  }

  function Width(n: nat): nat {
    if n == 0 then 1 else 2 * Width(n - 1)
  }

  lemma {:induction false} SetBitFits(b: nat, i: nat, n: nat)
    requires b < Width(n) && i < n
    ensures SetBit(b, i) < Width(n)
  {
    if i > 0 {
      SetBitFits(b / 2, i - 1, n - 1);
    }
  }

  function SetBitOfByte(b: byte, i: nat): byte
    requires i < 8
  {
    assert Width(8) == 256;
    SetBitFits(b, i, 8);
    SetBit(b, i)
  }

  ghost predicate Holds(a: seq<byte>, bits: set<nat>) {
    forall j :: 0 <= j < 8 * |a| ==> (TestBit(a[j / 8], j % 8) <==> j in bits)
  }

  /** The nested loops of `build` set exactly the bits of the records, in any order of records. */
  method BuildLoop(hash: Hash, records: set<Bytes>, numBits: nat, numHashes: nat) returns (a: array<byte>)
    requires numBits > 0 && numBits % 8 == 0
    ensures 8 * a.Length == numBits
    ensures Holds(a[..], BitsFor(hash, records, numBits, numHashes))
  {
    a := new byte[numBits / 8](_ => 0);
    forall i: nat {
      ZeroHasNoBits(i);
    }
    var rest, done := records, {};
    ghost var bits := {};
    while rest != {}
      invariant 8 * a.Length == numBits
      invariant done + rest == records
      invariant bits == BitsFor(hash, done, numBits, numHashes)
      invariant Holds(a[..], bits)
      decreases rest
    {
      var r :| r in rest;
      var k := 0;
      while k < numHashes
        invariant 0 <= k <= numHashes
        invariant 8 * a.Length == numBits
        invariant bits == BitsFor(hash, done, numBits, numHashes) + BitsFor(hash, {r}, numBits, k)
        invariant Holds(a[..], bits)
      {
        var j := BitIndex(hash(r), k, numBits);
        SetsOneBit(a[..], bits, j);
        a[j / 8] := SetBitOfByte(a[j / 8], j % 8);
        bits := bits + {j};
        OneMore(hash, r, numBits, k);
        k := k + 1;
      }
      assert BitsFor(hash, done + {r}, numBits, numHashes) == BitsFor(hash, done, numBits, numHashes) + BitsFor(hash, {r}, numBits, numHashes);
      rest, done := rest - {r}, done + {r};
    }
    assert done == records;
  }

  lemma SetsOneBit(a: seq<byte>, bits: set<nat>, j: nat)
    requires Holds(a, bits) && j < 8 * |a|
    ensures Holds(a[j / 8 := SetBitOfByte(a[j / 8], j % 8)], bits + {j})
  {
    var b := a[j / 8 := SetBitOfByte(a[j / 8], j % 8)];
    forall i | 0 <= i < 8 * |b|
      ensures TestBit(b[i / 8], i % 8) <==> i in bits + {j}
    {
      SetBitExact(a[j / 8], j % 8, i % 8);
      assert i == i / 8 * 8 + i % 8 && j == j / 8 * 8 + j % 8;
    }
  }

  /** The membership loop reads the bytes, and stops at the first bit that is not set. */
  method ContainsLoop(hash: Hash, a: seq<byte>, f: Filter, record: Bytes) returns (maybe: bool)
    requires f.numBits > 0 && 8 * |a| == f.numBits && Holds(a, f.bits)
    ensures maybe == MaybeContains(hash, f, record)
  {
    if f.numKeys == 0 {
      return false;
    }
    var h := hash(record);
    for k := 0 to f.numHashes
      invariant forall i :: 0 <= i < k ==> BitIndex(h, i, f.numBits) in f.bits
    {
      var j := BitIndex(h, k, f.numBits);
      assert j / 8 < |a| && j == j / 8 * 8 + j % 8;
      if !TestBit(a[j / 8], j % 8) {
        return false;
      }
    }
    return true;
  }

  lemma OneMore(hash: Hash, r: Bytes, numBits: nat, k: nat)
    requires numBits > 0
    ensures BitsFor(hash, {r}, numBits, k + 1) == BitsFor(hash, {r}, numBits, k) + {BitIndex(hash(r), k, numBits)}
  {
  }
}
