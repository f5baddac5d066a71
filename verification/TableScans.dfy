/** Range scans of one table (crates/flushdb-engine/src/sstable_handle.rs): sparse index, skipping
    before the start, early stop at the end. */
module TableScans {
  import opened Wrappers
  import opened ByteStrings
  import opened CompositeKeys
  import opened Entries
  import opened Tables

  predicate BeforeEnd(k: Bytes, end: Option<Bytes>) {
    end.None? || Lt(k, end.value)
  }

  /** The reference: the entries whose key is in range. */
  function Range(es: seq<Entry>, start: Bytes, end: Option<Bytes>): seq<Entry> {
    if es == [] then []
    else (if Le(start, es[0].key) && BeforeEnd(es[0].key, end) then [es[0]] else []) + Range(es[1..], start, end)
  }

  /** One block: what it adds, and whether the scan stops in it. */
  function ScanBlock(b: seq<Entry>, start: Bytes, end: Option<Bytes>): (seq<Entry>, bool) {
    if b == [] then ([], false)
    else if Lt(b[0].key, start) then ScanBlock(b[1..], start, end)
    else if !BeforeEnd(b[0].key, end) then ([], true)
    else
      var (rest, stop) := ScanBlock(b[1..], start, end);
      ([b[0]] + rest, stop)
  }

  function ScanFrom(blocks: seq<seq<Entry>>, i: nat, first: bool, start: Bytes, end: Option<Bytes>): seq<Entry>
    requires i <= |blocks|
    decreases |blocks| - i
  {
    if i == |blocks| then []
    else if !first && blocks[i] != [] && !BeforeEnd(blocks[i][0].key, end) then []
    else
      var (found, stop) := ScanBlock(blocks[i], start, end);
      if stop then found else found + ScanFrom(blocks, i + 1, false, start, end)
  }

  function StartBlock(blocks: seq<seq<Entry>>, start: Bytes): (i: nat)
    ensures i <= |blocks|
  {
    var n := BlocksUpTo(blocks, start);
    if n == 0 then 0 else n - 1
  }

  /** `SSTableHandle::scan` */
  function Scan(t: Table, start: Bytes, end: Option<Bytes>): seq<Entry> {
    ScanFrom(t.blocks, StartBlock(t.blocks, start), true, start, end)
  }

  /** The two loops of `scan`. */
  method ScanLoop(t: Table, start: Bytes, end: Option<Bytes>) returns (result: seq<Entry>)
    ensures result == Scan(t, start, end)
  {
    hide StartBlock, BeforeEnd, ScanBlock;
    result := [];
    var from := StartBlock(t.blocks, start);
    var i := from;
    ghost var whole := Scan(t, start, end);
    assert whole == [] + ScanFrom(t.blocks, from, true, start, end);
    while i < |t.blocks|
      invariant from <= i <= |t.blocks|
      invariant whole == result + ScanFrom(t.blocks, i, i == from, start, end)
    {
      var block := t.blocks[i];
      if i > from && block != [] && !BeforeEnd(block[0].key, end) {
        break;
      }
      var found, stop := ScanBlockLoop(block, start, end);
      if stop {
        return result + found;
      }
      Regroup(result, found, ScanFrom(t.blocks, i + 1, false, start, end));
      result, i := result + found, i + 1;
    }
    assert result + [] == result;
  }

  method ScanBlockLoop(b: seq<Entry>, start: Bytes, end: Option<Bytes>) returns (found: seq<Entry>, stop: bool)
    ensures found == ScanBlock(b, start, end).0 && stop == ScanBlock(b, start, end).1
  {
    hide BeforeEnd;
    found, stop := [], false;
    assert b[0..] == b;
    ghost var whole := ScanBlock(b, start, end);
    assert [] + whole.0 == whole.0;
    for j := 0 to |b|
      invariant !stop
      invariant whole.0 == found + ScanBlock(b[j..], start, end).0
      invariant whole.1 == ScanBlock(b[j..], start, end).1
    {
      assert b[j..][1..] == b[j + 1..];
      if Lt(b[j].key, start) {
        continue;
      }
      if !BeforeEnd(b[j].key, end) {
        assert found + [] == found;
        return found, true;
      }
      Regroup(found, [b[j]], ScanBlock(b[j + 1..], start, end).0);
      found := found + [b[j]];
    }
    assert b[|b|..] == [] && found + [] == found;
  }

  // --- The reference filter ---

  lemma {:induction false} RangeAppend(a: seq<Entry>, b: seq<Entry>, start: Bytes, end: Option<Bytes>)
    ensures Range(a + b, start, end) == Range(a, start, end) + Range(b, start, end)
  {
    if a == [] {
      assert a + b == b;
    } else {
      assert (a + b)[1..] == a[1..] + b;
      RangeAppend(a[1..], b, start, end);
    }
  }

  lemma {:induction false} RangeMembers(es: seq<Entry>, start: Bytes, end: Option<Bytes>)
    ensures forall e :: e in Range(es, start, end) <==> e in es && Le(start, e.key) && (end.None? || Lt(e.key, end.value))
  {
    if es != [] {
      hide Lt;
      RangeMembers(es[1..], start, end);
      assert forall e :: e in es <==> e == es[0] || e in es[1..];
    }
  }

  lemma {:induction false} RangeSorted(es: seq<Entry>, start: Bytes, end: Option<Bytes>)
    requires StrictlySorted(es)
    ensures StrictlySorted(Range(es, start, end))
  {
    if es != [] {
      hide Lt, Before, BeforeEnd;
      var tail := es[1..];
      assert forall i :: 0 <= i < |tail| ==> tail[i] == es[i + 1];
      RangeSorted(tail, start, end);
      RangeMembers(tail, start, end);
      var rest := Range(tail, start, end);
      forall i | 0 <= i < |rest|
        ensures Before(es[0], rest[i])
      {
        assert rest[i] in rest;
        var j :| 0 <= j < |tail| && tail[j] == rest[i];
      }
    }
  }

  lemma {:induction false} RangePastEnd(es: seq<Entry>, start: Bytes, end: Option<Bytes>)
    requires forall e :: e in es ==> !BeforeEnd(e.key, end)
    ensures Range(es, start, end) == []
  {
    if es != [] {
      assert es[0] in es;
      assert forall e :: e in es[1..] ==> e in es;
      RangePastEnd(es[1..], start, end);
    }
  }

  /** In key order, everything after a key at the end is past the end. */
  ghost predicate KeysFrom(es: seq<Entry>, k: Bytes) {
    forall e :: e in es ==> Le(k, e.key)
  }

  lemma PastEnd(es: seq<Entry>, k: Bytes, start: Bytes, end: Option<Bytes>)
    requires KeysFrom(es, k) && !BeforeEnd(k, end)
    ensures Range(es, start, end) == []
  {
    LtIsStrictTotalOrder();
    hide Lt;
    forall e | e in es
      ensures !BeforeEnd(e.key, end)
    {
    }
    RangePastEnd(es, start, end);
  }

  lemma SortedTail(a: Entry, es: seq<Entry>)
    requires StrictlySorted([a] + es)
    ensures StrictlySorted(es) && KeysFrom(es, a.key)
  {
    var all := [a] + es;
    assert forall i :: 0 <= i < |es| ==> all[i + 1] == es[i];
    forall e | e in es
      ensures Le(a.key, e.key)
    {
      var i :| 0 <= i < |es| && es[i] == e;
      assert Before(all[0], all[i + 1]);
    }
  }

  // --- Scan against the reference ---

  /** A sorted block contributes its part of the range; stopping loses nothing that follows. */
  lemma {:induction false} ScanBlockIsRange(b: seq<Entry>, rest: seq<Entry>, start: Bytes, end: Option<Bytes>)
    requires StrictlySorted(b + rest)
    ensures var (found, stop) := ScanBlock(b, start, end);
            found == Range(b, start, end) && (stop ==> Range(rest, start, end) == [])
  {
    if b != [] {
      LtIsStrictTotalOrder();
      assert b + rest == [b[0]] + (b[1..] + rest);
      SortedTail(b[0], b[1..] + rest);
      hide Lt;
      ScanBlockIsRange(b[1..], rest, start, end);
      if !BeforeEnd(b[0].key, end) {
        assert KeysFrom(b[1..], b[0].key) && KeysFrom(rest, b[0].key);
        PastEnd(b[1..], b[0].key, start, end);
        PastEnd(rest, b[0].key, start, end);
      }
    }
  }

  lemma {:induction false} ScanFromIsRange(blocks: seq<seq<Entry>>, i: nat, first: bool, start: Bytes, end: Option<Bytes>)
    requires i <= |blocks| && StrictlySorted(Flatten(blocks[i..]))
    ensures ScanFrom(blocks, i, first, start, end) == Range(Flatten(blocks[i..]), start, end)
    decreases |blocks| - i
  {
    if i < |blocks| {
      var b, rest := blocks[i], Flatten(blocks[i + 1..]);
      assert blocks[i..][1..] == blocks[i + 1..];
      TailSorted(b, rest);
      hide StrictlySorted;
      ScanFromIsRange(blocks, i + 1, false, start, end);
      ScanBlockIsRange(b, rest, start, end);
      RangeAppend(b, rest, start, end);
      hide Range, ScanBlock;
      if b != [] && !BeforeEnd(b[0].key, end) {
        assert b + rest == [b[0]] + (b[1..] + rest);
        SortedTail(b[0], b[1..] + rest);
        HeadKeysFrom(b, rest);
        PastEnd(b + rest, b[0].key, start, end);
      }
    }
  }

  lemma HeadKeysFrom(b: seq<Entry>, rest: seq<Entry>)
    requires b != [] && KeysFrom(b[1..] + rest, b[0].key)
    ensures KeysFrom(b + rest, b[0].key)
  {
    assert b + rest == [b[0]] + (b[1..] + rest);
  }

  /** Blocks before the starting one hold only keys up to the start. */
  lemma {:induction false} PrefixUpToStart(cfg: SstConfig, t: Table, start: Bytes, e: Entry)
    requires WellFormed(cfg, t) && e in Flatten(t.blocks[..StartBlock(t.blocks, start)])
    ensures Le(e.key, start)
    ensures e.key == start ==> Splits(t, start)
  {
    LtIsStrictTotalOrder();
    var n := BlocksUpTo(t.blocks, start);
    FlattenMember(t.blocks[..StartBlock(t.blocks, start)], e);
    var j :| 0 <= j < n - 1 && e in t.blocks[j];
    BlocksInOrder(t.blocks, j, n - 1, e, t.blocks[n - 1][0]);
    if e.key == start {
      OutsideChosenBlock(cfg, t, start, j, e);
    }
  }

  /** A split key has a version before the starting block. */
  lemma SplitIsBefore(cfg: SstConfig, t: Table, start: Bytes) returns (e: Entry)
    requires WellFormed(cfg, t) && Splits(t, start)
    ensures e in Flatten(t.blocks[..StartBlock(t.blocks, start)]) && e.key == start
  {
    LtIrreflexive(start);
    var i :| 0 < i < |t.blocks| && EndsWith(t.blocks[i - 1], start) && StartsWith(t.blocks[i], start);
    var left := t.blocks[i - 1];
    e := left[|left| - 1];
    LaterBlocksAreAbove(cfg, t, start, i, t.blocks[i][0]);
    var s := StartBlock(t.blocks, start);
    assert i - 1 < s;
    assert t.blocks[..s][i - 1] == left;
    FlattenMember(t.blocks[..s], e);
  }

  lemma ScanIsSuffix(cfg: SstConfig, t: Table, start: Bytes, end: Option<Bytes>)
    requires WellFormed(cfg, t)
    ensures var s := StartBlock(t.blocks, start);
            && Scan(t, start, end) == Range(Flatten(t.blocks[s..]), start, end)
            && Range(t.Contents(), start, end) == Range(Flatten(t.blocks[..s]), start, end) + Scan(t, start, end)
  {
    var s := StartBlock(t.blocks, start);
    assert t.blocks == t.blocks[..s] + t.blocks[s..];
    FlattenAppend(t.blocks[..s], t.blocks[s..]);
    TailSorted(Flatten(t.blocks[..s]), Flatten(t.blocks[s..]));
    ScanFromIsRange(t.blocks, s, true, start, end);
    RangeAppend(Flatten(t.blocks[..s]), Flatten(t.blocks[s..]), start, end);
  }

  /** A scan returns exactly the entries in range, in order, unless versions of the start key itself
      straddle a block boundary: the sparse index then begins too late. */
  lemma {:induction false} ScanIsRangeIff(cfg: SstConfig, t: Table, start: Bytes, end: Option<Bytes>)
    requires WellFormed(cfg, t)
    ensures Scan(t, start, end) == Range(t.Contents(), start, end) <==> !(Splits(t, start) && BeforeEnd(start, end))
  {
    var s := StartBlock(t.blocks, start);
    var early := Flatten(t.blocks[..s]);
    ScanIsSuffix(cfg, t, start, end);
    RangeMembers(early, start, end);
    if Splits(t, start) && BeforeEnd(start, end) {
      var e := SplitIsBefore(cfg, t, start);
      assert e in Range(early, start, end);
      assert |Range(t.Contents(), start, end)| > |Scan(t, start, end)|;
    } else {
      NothingEarly(cfg, t, start, end);
      assert [] + Scan(t, start, end) == Scan(t, start, end);
    }
  }

  lemma NothingEarly(cfg: SstConfig, t: Table, start: Bytes, end: Option<Bytes>)
    requires WellFormed(cfg, t) && !(Splits(t, start) && BeforeEnd(start, end))
    ensures Range(Flatten(t.blocks[..StartBlock(t.blocks, start)]), start, end) == []
  {
    var early := Flatten(t.blocks[..StartBlock(t.blocks, start)]);
    RangeMembers(early, start, end);
    LtIsStrictTotalOrder();
    forall e | e in early
      ensures !(Le(start, e.key) && BeforeEnd(e.key, end))
    {
      PrefixUpToStart(cfg, t, start, e);
    }
    EmptyOrInhabited(Range(early, start, end));
  }

  lemma EmptyOrInhabited(es: seq<Entry>)
    ensures es == [] || exists e :: e in es
  {
    assert es == [] || es[0] in es;
  }

  /** Past the start key a scan misses nothing, split or not. */
  lemma {:induction false} ScanMembers(cfg: SstConfig, t: Table, start: Bytes, end: Option<Bytes>)
    requires WellFormed(cfg, t)
    ensures StrictlySorted(Scan(t, start, end))
    ensures forall e :: e in Scan(t, start, end) ==> e in t.Contents() && Le(start, e.key) && BeforeEnd(e.key, end)
    ensures forall e :: e in t.Contents() && Lt(start, e.key) && BeforeEnd(e.key, end) ==> e in Scan(t, start, end)
  {
    var s := StartBlock(t.blocks, start);
    ScanIsSuffix(cfg, t, start, end);
    RangeMembers(t.Contents(), start, end);
    RangeSorted(t.Contents(), start, end);
    TailSorted(Range(Flatten(t.blocks[..s]), start, end), Scan(t, start, end));
    RangeMembers(Flatten(t.blocks[..s]), start, end);
    LtIsStrictTotalOrder();
    forall e | e in t.Contents() && Lt(start, e.key) && BeforeEnd(e.key, end)
      ensures e in Scan(t, start, end)
    {
      assert e in Range(t.Contents(), start, end);
      if e in Range(Flatten(t.blocks[..s]), start, end) {
        PrefixUpToStart(cfg, t, start, e);
      }
    }
  }
}
