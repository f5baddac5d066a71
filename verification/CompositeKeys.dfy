/** Composite keys `[record_id][0x00][item_key]` (crates/flushdb-types/src/composite_key.rs). */
module CompositeKeys {
  import opened Wrappers
  import opened ByteStrings

  const MAX_RECORD_ID_LEN := 256
  const MAX_ITEM_KEY_LEN := 4096
  const SEPARATOR: byte := 0x00
  const RANGE_TOMBSTONE_PREFIX: byte := 0xFF

  type CompositeKey = Bytes

  /** All that is demanded of a parsed key. */
  predicate HasSeparator(k: CompositeKey) {
    SEPARATOR in k
  }

  predicate ValidRecordId(record: Bytes) {
    record != [] && SEPARATOR !in record && |record| <= MAX_RECORD_ID_LEN
  }

  function Join(record: Bytes, item: Bytes): CompositeKey {
    record + [SEPARATOR] + item
  }

  function NewKey(record: Bytes, item: Bytes): Result<CompositeKey> {
    if record == [] || SEPARATOR in record then Err(InvalidKey)
    else if |record| > MAX_RECORD_ID_LEN || |item| > MAX_ITEM_KEY_LEN then Err(KeyTooLong)
    else Ok(Join(record, item))
  }

  function RangeTombstoneKey(record: Bytes, start: Bytes): Result<CompositeKey> {
    NewKey(record, [RANGE_TOMBSTONE_PREFIX] + start)
  }

  function MinKeyForRecord(record: Bytes): Result<CompositeKey> {
    NewKey(record, [])
  }

  function MaxKeyForRecord(record: Bytes): Result<CompositeKey> {
    NewKey(record, [RANGE_TOMBSTONE_PREFIX])
  }

  function ParseKey(raw: Bytes): Result<CompositeKey> {
    if SEPARATOR in raw then Ok(raw) else Err(InvalidKey)
  }

  /** A key is made of a record id of 1 to 256 bytes without NUL and an item of at most 4096 bytes. */
  lemma KeyLimits(record: Bytes, item: Bytes)
    ensures NewKey(record, item).Ok? <==> 1 <= |record| <= 256 && 0 !in record && |item| <= 4096
    ensures NewKey(record, item).Ok? ==> NewKey(record, item).value == record + [0] + item
  {
  }

  /** Position of the first separator; the length of `k` when it holds none, which parsed keys
      never do. */
  function SeparatorAt(k: CompositeKey): (i: nat)
    ensures i <= |k| && SEPARATOR !in k[..i]
    ensures i < |k| ==> k[i] == SEPARATOR
    ensures HasSeparator(k) ==> i < |k|
    decreases |k|
  {
    if k == [] || k[0] == SEPARATOR then 0
    else
      var i := SeparatorAt(k[1..]);
      assert k[..i + 1] == [k[0]] + k[1..][..i];
      assert k == [k[0]] + k[1..];
      i + 1
  }

  function RecordId(k: CompositeKey): Bytes {
    k[..SeparatorAt(k)]
  }

  function ItemKey(k: CompositeKey): Bytes {
    if SeparatorAt(k) < |k| then k[SeparatorAt(k) + 1..] else []
  }

  /** Splitting at the first separator undoes joining, whenever the record id has no NUL byte,
      and joining undoes splitting for every key. */
  lemma {:induction false} JoinSplit(record: Bytes, item: Bytes)
    requires SEPARATOR !in record
    ensures RecordId(Join(record, item)) == record && ItemKey(Join(record, item)) == item
  {
    var k := Join(record, item);
    var i := SeparatorAt(k);
    assert k[|record|] == SEPARATOR && k[..|record|] == record;
    assert i == |record|;
  }

  lemma SplitJoin(k: CompositeKey)
    requires HasSeparator(k)
    ensures SEPARATOR !in RecordId(k)
    ensures k == Join(RecordId(k), ItemKey(k))
  {
  }

  /** Inside one record, composite keys compare as their item keys do. */
  lemma OrderWithinRecord(record: Bytes, a: Bytes, b: Bytes)
    ensures Lt(Join(record, a), Join(record, b)) <==> Lt(a, b)
  {
    LtCommonPrefix(record + [SEPARATOR], a, b);
  }

  /** Keys that lie between two keys of one record belong to that record: a record is one
      contiguous run of the key order. */
  lemma {:induction false} RecordsAreContiguous(record: Bytes, lo: Bytes, k: CompositeKey, hi: Bytes)
    requires SEPARATOR !in record
    requires Le(Join(record, lo), k) && Le(k, Join(record, hi))
    ensures RecordId(k) == record
  {
    PrefixBetween(record + [SEPARATOR], lo, k, hi);
    assert k == Join(record, k[|record| + 1..]);
    JoinSplit(record, k[|record| + 1..]);
  }

  lemma {:induction false} PrefixBetween(p: Bytes, lo: Bytes, k: Bytes, hi: Bytes)
    requires Le(p + lo, k) && Le(k, p + hi)
    ensures |p| <= |k| && k[..|p|] == p
  {
    if p != [] {
      assert (p + lo)[1..] == p[1..] + lo && (p + hi)[1..] == p[1..] + hi;
      PrefixBetween(p[1..], lo, k[1..], hi);
      assert k[..|p|] == [k[0]] + k[1..][..|p| - 1];
    }
  }
}
