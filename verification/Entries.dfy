/** Versions of keys and sorted lists of them (crates/flushdb-engine/src/merge_iterator.rs). */
module Entries {
  import opened Wrappers
  import opened ByteStrings
  import opened CompositeKeys

  datatype EntryType = Put | Delete | RangeDelete

  datatype Entry = Entry(key: CompositeKey, value: Bytes, metadata: Bytes, kind: EntryType, seqno: nat) {
    predicate IsTombstone() {
      kind == Delete || kind == RangeDelete
    }
  }

  /** Key ascending, sequence descending: the order of memtables, tables and merge sources. */
  predicate Before(a: Entry, b: Entry) {
    Lt(a.key, b.key) || (a.key == b.key && a.seqno > b.seqno)
  }

  predicate Sorted(s: seq<Entry>) {
    forall i, j :: 0 <= i < j < |s| ==> !Before(s[j], s[i])
  }

  predicate StrictlySorted(s: seq<Entry>) {
    forall i, j :: 0 <= i < j < |s| ==> Before(s[i], s[j])
  }

  predicate KeysIncreasing(s: seq<Entry>) {
    forall i, j :: 0 <= i < j < |s| ==> Lt(s[i].key, s[j].key)
  }

  function Flatten<T>(parts: seq<seq<T>>): seq<T> {
    if parts == [] then [] else parts[0] + Flatten(parts[1..])
  }

  lemma Regroup<T>(a: seq<T>, b: seq<T>, c: seq<T>)
    ensures a + (b + c) == a + b + c
  {
  }

  lemma FlattenOneMore<T>(parts: seq<seq<T>>, x: seq<T>)
    ensures Flatten(parts + [x]) == Flatten(parts) + x
  {
    FlattenAppend(parts, [x]);
    assert Flatten([x][1..]) == [];
  }

  lemma {:induction false} FlattenMember<T>(parts: seq<seq<T>>, x: T)
    ensures x in Flatten(parts) <==> exists i :: 0 <= i < |parts| && x in parts[i]
  {
    if parts != [] {
      FlattenMember(parts[1..], x);
      if x in Flatten(parts[1..]) {
        var i :| 0 <= i < |parts[1..]| && x in parts[1..][i];
        assert x in parts[i + 1];
      } else if exists i :: 0 <= i < |parts| && x in parts[i] {
        var i :| 0 <= i < |parts| && x in parts[i];
        assert i == 0 || x in parts[1..][i - 1];
      }
    }
  }

  lemma {:induction false} FlattenAppend<T>(a: seq<seq<T>>, b: seq<seq<T>>)
    ensures Flatten(a + b) == Flatten(a) + Flatten(b)
  {
    if a == [] {
      assert a + b == b;
    } else {
      assert (a + b)[1..] == a[1..] + b;
      FlattenAppend(a[1..], b);
    }
  }

  /** The version of `k` with the highest sequence number in `s`, the first one met among equals;
      this is the selection loop of `SSTableHandle::get` and of `point_read`. */
  function Newest(s: seq<Entry>, k: Bytes): (best: Option<Entry>)
    ensures best.None? <==> forall e :: e in s ==> e.key != k
    ensures best.Some? ==> best.value in s && best.value.key == k
    ensures best.Some? ==> forall e :: e in s && e.key == k ==> e.seqno <= best.value.seqno
  {
    if s == [] then None
    else
      var e := s[|s| - 1];
      var prior := Newest(s[..|s| - 1], k);
      assert s == s[..|s| - 1] + [e];
      if e.key != k then prior
      else if prior.Some? && prior.value.seqno >= e.seqno then prior
      else Some(e)
  }
}
