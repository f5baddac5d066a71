/** The sorted index of range tombstones (crates/flushdb-engine/src/range_tombstone.rs). */
module RangeTombstones {
  import opened Wrappers
  import opened ByteStrings

  datatype RangeTombstone = RangeTombstone(record: Bytes, start: Bytes, end: Bytes, seqno: nat)

  /** The naive test for one tombstone: same record, item in range, entry written earlier. An empty
      end leaves the range open. */
  predicate Hides(t: RangeTombstone, record: Bytes, item: Bytes, seqno: nat) {
    t.record == record && Le(t.start, item) && (t.end == [] || Lt(item, t.end)) && t.seqno > seqno
  }

  predicate Covers(ts: seq<RangeTombstone>, record: Bytes, item: Bytes, seqno: nat) {
    exists i :: 0 <= i < |ts| && Hides(ts[i], record, item, seqno)
  }

  predicate NotAfter(a: RangeTombstone, b: RangeTombstone) {
    Lt(a.record, b.record) || (a.record == b.record && Le(a.start, b.start))
  }

  class RangeTombstoneIndex {
    var tombstones: seq<RangeTombstone>
    ghost var added: multiset<RangeTombstone>

    ghost predicate Valid()
      reads this
    {
      && multiset(tombstones) == added
      && SortedIndex(tombstones)
    }

    constructor ()
      ensures Valid() && added == multiset{}
    {
      tombstones, added := [], multiset{};
    }

    /** Insertion at the position a binary search by (record, start) returns. */
    method Add(t: RangeTombstone)
      requires Valid()
      modifies this
      ensures Valid() && added == old(added) + multiset{t}
    {
      var pos := SearchPosition(tombstones, t);
      assert tombstones == tombstones[..pos] + tombstones[pos..];
      tombstones := tombstones[..pos] + [t] + tombstones[pos..];
      added := added + multiset{t};
    }

    /** The lookup equals the naive test over everything ever added: neither the search for the
        record's run nor the early stop at a later start loses a tombstone. */
    method CoversKey(record: Bytes, item: Bytes, seqno: nat) returns (r: bool)
      requires Valid()
      ensures r <==> exists t :: t in added && Hides(t, record, item, seqno)
    {
      var lo, hi := RecordRun(tombstones, record);
      var i := lo;
      while i < hi
        invariant lo <= i <= hi
        invariant forall j :: lo <= j < i ==> !Hides(tombstones[j], record, item, seqno)
      {
        var t := tombstones[i];
        if Le(t.start, item) {
          if (t.end == [] || Lt(item, t.end)) && t.seqno > seqno {
            assert t in multiset(tombstones);
            return true;
          }
        }
        if Lt(item, t.start) {
          StopIsSafe(tombstones, i, hi, record, item, seqno);
          NoneHides(tombstones, lo, hi, record, item, seqno);
          return false;
        }
        i := i + 1;
      }
      NoneHides(tombstones, lo, hi, record, item, seqno);
      return false;
    }
  }

  ghost predicate SortedIndex(ts: seq<RangeTombstone>) {
    forall i, j :: 0 <= i < j < |ts| ==> NotAfter(ts[i], ts[j])
  }

  lemma StopIsSafe(ts: seq<RangeTombstone>, i: nat, hi: nat, record: Bytes, item: Bytes, seqno: nat)
    requires SortedIndex(ts) && i < hi <= |ts|
    requires forall j :: i <= j < hi ==> ts[j].record == record
    requires Lt(item, ts[i].start)
    ensures forall j :: i <= j < hi ==> !Hides(ts[j], record, item, seqno)
  {
    LtIsStrictTotalOrder();
    hide Lt;
    forall j | i <= j < hi
      ensures !Hides(ts[j], record, item, seqno)
    {
      assert i < j ==> NotAfter(ts[i], ts[j]);
    }
  }

  lemma NoneHides(ts: seq<RangeTombstone>, lo: nat, hi: nat, record: Bytes, item: Bytes, seqno: nat)
    requires lo <= hi <= |ts|
    requires forall j :: 0 <= j < |ts| && ts[j].record == record ==> lo <= j < hi
    requires forall j :: lo <= j < hi ==> !Hides(ts[j], record, item, seqno)
    ensures forall t :: t in multiset(ts) ==> !Hides(t, record, item, seqno)
  {
    forall t | t in multiset(ts)
      ensures !Hides(t, record, item, seqno)
    {
      var j :| 0 <= j < |ts| && ts[j] == t;
    }
  }

  /** A position where inserting `t` keeps the order. */
  method SearchPosition(ts: seq<RangeTombstone>, t: RangeTombstone) returns (pos: nat)
    requires SortedIndex(ts)
    ensures pos <= |ts|
    ensures SortedIndex(ts[..pos] + [t] + ts[pos..])
  {
    var lo, hi := 0, |ts|;
    LtIsStrictTotalOrder();
    hide Lt;
    while lo < hi
      invariant 0 <= lo <= hi <= |ts|
      invariant forall i :: 0 <= i < lo ==> NotAfter(ts[i], t)
      invariant forall i :: hi <= i < |ts| ==> NotAfter(t, ts[i])
    {
      var mid := (lo + hi) / 2;
      if ts[mid].record == t.record && ts[mid].start == t.start {
        forall i | 0 <= i < |ts|
          ensures i < mid ==> NotAfter(ts[i], t)
          ensures i >= mid ==> NotAfter(t, ts[i])
        {
          assert i < mid ==> NotAfter(ts[i], ts[mid]);
          assert i > mid ==> NotAfter(ts[mid], ts[i]);
        }
        return mid;
      } else if NotAfter(ts[mid], t) {
        forall i | 0 <= i <= mid
          ensures NotAfter(ts[i], t)
        {
          assert i < mid ==> NotAfter(ts[i], ts[mid]);
        }
        lo := mid + 1;
      } else {
        forall i | mid <= i < |ts|
          ensures NotAfter(t, ts[i])
        {
          assert i > mid ==> NotAfter(ts[mid], ts[i]);
        }
        hi := mid;
      }
    }
    pos := lo;
  }

  /** The contiguous run of one record: a binary search for any member, then walks both ways. */
  method RecordRun(ts: seq<RangeTombstone>, record: Bytes) returns (lo: nat, hi: nat)
    requires SortedIndex(ts)
    ensures lo <= hi <= |ts|
    ensures forall j :: 0 <= j < |ts| ==> (ts[j].record == record <==> lo <= j < hi)
  {
    LtIsStrictTotalOrder();
    hide Lt;
    var a, b := 0, |ts|;
    while a < b
      invariant 0 <= a <= b <= |ts|
      invariant forall i :: 0 <= i < a ==> Lt(ts[i].record, record)
      invariant forall i :: b <= i < |ts| ==> Lt(record, ts[i].record)
    {
      var mid := (a + b) / 2;
      if ts[mid].record == record {
        lo := mid;
        while lo > 0 && ts[lo - 1].record == record
          invariant 0 <= lo <= mid
          invariant forall i :: lo <= i <= mid ==> ts[i].record == record
        {
          lo := lo - 1;
        }
        hi := mid + 1;
        while hi < |ts| && ts[hi].record == record
          invariant mid < hi <= |ts|
          invariant forall i :: mid <= i < hi ==> ts[i].record == record
        {
          hi := hi + 1;
        }
        RunIsMaximal(ts, record, lo, hi);
        return;
      } else if Lt(ts[mid].record, record) {
        forall i | 0 <= i <= mid
          ensures Lt(ts[i].record, record)
        {
          assert i < mid ==> NotAfter(ts[i], ts[mid]);
        }
        a := mid + 1;
      } else {
        forall i | mid <= i < |ts|
          ensures Lt(record, ts[i].record)
        {
          assert i > mid ==> NotAfter(ts[mid], ts[i]);
        }
        b := mid;
      }
    }
    lo, hi := 0, 0;
  }

  lemma RunIsMaximal(ts: seq<RangeTombstone>, record: Bytes, lo: nat, hi: nat)
    requires SortedIndex(ts) && lo < hi <= |ts|
    requires forall i :: lo <= i < hi ==> ts[i].record == record
    requires lo > 0 ==> ts[lo - 1].record != record
    requires hi < |ts| ==> ts[hi].record != record
    ensures forall j :: 0 <= j < |ts| ==> (ts[j].record == record <==> lo <= j < hi)
  {
    LtIsStrictTotalOrder();
    hide Lt;
    forall j | 0 <= j < |ts| && !(lo <= j < hi)
      ensures ts[j].record != record
    {
      if j < lo {
        assert j < lo - 1 ==> NotAfter(ts[j], ts[lo - 1]);
        assert NotAfter(ts[lo - 1], ts[lo]);
      } else {
        assert j > hi ==> NotAfter(ts[hi], ts[j]);
        assert NotAfter(ts[hi - 1], ts[hi]);
      }
    }
  }
}
