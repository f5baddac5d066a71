/** Results, byte strings and their lexicographic order, and fixed-width integers. */
module Wrappers {
  datatype Option<+T> = None | Some(value: T)

  /** The error kinds of crates/flushdb-types/src/error.rs that the modelled code raises. */
  datatype Error =
    | CorruptedData
    | CrcMismatch
    | InvalidKey
    | KeyTooLong
    | InvalidArgument
    | DuplicateToken
    | ResourceExhausted
    | EpochFenced
    | PreconditionFailed

  datatype Result<+T> = Ok(value: T) | Err(error: Error) {
    predicate IsFailure() {
      Err?
    }

    function PropagateFailure<U>(): Result<U>
      requires Err?
    {
      Err(error)
    }

    function Extract(): T
      requires Ok?
    {
      value
    }
  }
}

module ByteStrings {

  type byte = x: int | 0 <= x < 256

  type Bytes = seq<byte>

  /** Lexicographic comparison of byte slices, the order of every key in the system. */
  predicate Lt(a: Bytes, b: Bytes) {
    b != [] && (a == [] || a[0] < b[0] || (a[0] == b[0] && Lt(a[1..], b[1..])))
  }

  predicate Le(a: Bytes, b: Bytes) {
    a == b || Lt(a, b)
  }

  function Min(a: Bytes, b: Bytes): Bytes {
    if Lt(b, a) then b else a
  }

  function Max(a: Bytes, b: Bytes): Bytes {
    if Lt(a, b) then b else a
  }

  lemma {:induction false} LtIrreflexive(a: Bytes)
    ensures !Lt(a, a)
  {
    if a != [] {
      LtIrreflexive(a[1..]);
    }
  }

  lemma {:induction false} LtTransitive(a: Bytes, b: Bytes, c: Bytes)
    requires Lt(a, b) && Lt(b, c)
    ensures Lt(a, c)
  {
    if a != [] && a[0] == b[0] == c[0] {
      LtTransitive(a[1..], b[1..], c[1..]);
    }
  }

  lemma {:induction false} LtTotal(a: Bytes, b: Bytes)
    ensures a == b || Lt(a, b) || Lt(b, a)
  {
    if a != [] && b != [] && a[0] == b[0] {
      LtTotal(a[1..], b[1..]);
      if a[1..] == b[1..] {
        assert a == [a[0]] + a[1..] && b == [b[0]] + b[1..];
      }
    }
  }

  /** The byte order is a strict total order. */
  lemma LtIsStrictTotalOrder()
    ensures forall a: Bytes :: !Lt(a, a)
    ensures forall a: Bytes, b: Bytes, c: Bytes {:trigger Lt(a, b), Lt(b, c)} :: Lt(a, b) && Lt(b, c) ==> Lt(a, c)
    ensures forall a: Bytes, b: Bytes {:trigger Lt(a, b)} :: a == b || Lt(a, b) || Lt(b, a)
  {
    forall a: Bytes
      ensures !Lt(a, a)
    {
      LtIrreflexive(a);
    }
    forall a: Bytes, b: Bytes, c: Bytes | Lt(a, b) && Lt(b, c)
      ensures Lt(a, c)
    {
      LtTransitive(a, b, c);
    }
    forall a: Bytes, b: Bytes
      ensures a == b || Lt(a, b) || Lt(b, a)
    {
      LtTotal(a, b);
    }
  }

  /** A common prefix does not take part in the comparison. */
  lemma {:induction false} LtCommonPrefix(p: Bytes, a: Bytes, b: Bytes)
    ensures Lt(p + a, p + b) <==> Lt(a, b)
  {
    if p == [] {
      assert p + a == a && p + b == b;
    } else {
      assert (p + a)[1..] == p[1..] + a && (p + b)[1..] == p[1..] + b;
      LtCommonPrefix(p[1..], a, b);
    }
  }

  // --- Fixed-width integers ---

  function Pow256(n: nat): (p: nat)
    ensures p >= 1
  {
    if n == 0 then 1 else 256 * Pow256(n - 1)
  }

  lemma Pow256Literals()
    ensures Pow256(1) == 0x100 && Pow256(2) == 0x1_0000 && Pow256(4) == 0x1_0000_0000
    ensures Pow256(8) == 0x1_0000_0000_0000_0000
  {
    assert Pow256(3) == 0x100_0000;
    assert Pow256(5) == 0x100_0000_0000;
    assert Pow256(6) == 0x1_0000_0000_0000;
    assert Pow256(7) == 0x100_0000_0000_0000;
  }

  /** The `n`-byte little-endian form of `v`, keeping the low bytes as a truncating cast does. */
  function ToLe(v: nat, n: nat): (b: Bytes)
    ensures |b| == n
  {
    if n == 0 then [] else [v % 256] + ToLe(v / 256, n - 1)
  }

  function FromLe(b: Bytes): nat {
    if b == [] then 0 else b[0] + 256 * FromLe(b[1..])
  }

  /** A value that fits the width survives the trip through its little-endian form. */
  lemma {:induction false} LeRoundTrip(v: nat, n: nat)
    requires v < Pow256(n)
    ensures FromLe(ToLe(v, n)) == v
  {
    if n != 0 {
      LeRoundTrip(v / 256, n - 1);
    }
  }

  /** And every byte string is the little-endian form of the value read from it. */
  lemma {:induction false} LeInverse(b: Bytes)
    ensures FromLe(b) < Pow256(|b|) && ToLe(FromLe(b), |b|) == b
  {
    if b != [] {
      LeInverse(b[1..]);
      var rest := FromLe(b[1..]);
      assert (b[0] + 256 * rest) % 256 == b[0] && (b[0] + 256 * rest) / 256 == rest;
      assert b == [b[0]] + b[1..];
    }
  }

  /** The `n`-byte big-endian form of `v`. */
  function ToBe(v: nat, n: nat): (b: Bytes)
    ensures |b| == n
  {
    if n == 0 then [] else ToBe(v / 256, n - 1) + [v % 256]
  }

  function FromBe(b: Bytes): nat {
    if b == [] then 0 else 256 * FromBe(b[..|b| - 1]) + b[|b| - 1]
  }

  lemma {:induction false} BeRoundTrip(v: nat, n: nat)
    requires v < Pow256(n)
    ensures FromBe(ToBe(v, n)) == v
  {
    if n != 0 {
      BeRoundTrip(v / 256, n - 1);
      assert ToBe(v, n)[..n - 1] == ToBe(v / 256, n - 1);
    }
  }

  lemma {:induction false} LtSameLengthExtend(a: Bytes, x: byte, b: Bytes, y: byte)
    requires |a| == |b|
    ensures Lt(a + [x], b + [y]) <==> Lt(a, b) || (a == b && x < y)
  {
    if a != [] {
      assert (a + [x])[1..] == a[1..] + [x] && (b + [y])[1..] == b[1..] + [y];
      LtSameLengthExtend(a[1..], x, b[1..], y);
      assert a == [a[0]] + a[1..] && b == [b[0]] + b[1..];
    }
  }

  /** Strings that begin with parts of one length compare by those parts first. */
  lemma {:induction false} LtSameLengthConcat(a: Bytes, x: Bytes, b: Bytes, y: Bytes)
    requires |a| == |b|
    ensures Lt(a + x, b + y) <==> Lt(a, b) || (a == b && Lt(x, y))
  {
    if a == [] {
      assert a + x == x && b + y == y;
    } else {
      assert (a + x)[1..] == a[1..] + x && (b + y)[1..] == b[1..] + y;
      LtSameLengthConcat(a[1..], x, b[1..], y);
      assert a == [a[0]] + a[1..] && b == [b[0]] + b[1..];
    }
  }

  /** Big-endian forms of one width compare as the numbers they encode. */
  lemma {:induction false} BeOrder(v: nat, w: nat, n: nat)
    requires v < Pow256(n) && w < Pow256(n)
    ensures Lt(ToBe(v, n), ToBe(w, n)) <==> v < w
    ensures ToBe(v, n) == ToBe(w, n) <==> v == w
  {
    if n != 0 {
      BeOrder(v / 256, w / 256, n - 1);
      LtSameLengthExtend(ToBe(v / 256, n - 1), v % 256, ToBe(w / 256, n - 1), w % 256);
      BeRoundTrip(v, n);
      BeRoundTrip(w, n);
    }
  }
}
