/** The memtable as it is built (crates/flushdb-engine/src/memtable.rs): a skip list, a range tombstone
    index and a token set. Its methods compute the functions that the engine's state machine uses. */
module Memtables {
  import opened Wrappers
  import opened ByteStrings
  import opened CompositeKeys
  import opened Entries
  import opened RangeTombstones
  import opened SkipLists
  import opened MergeIteration
  import E = Engine
  import opened RangeReads
  import SortedRuns

  class MemtableObject {
    const skiplist: SkipList
    const index: RangeTombstoneIndex
    var tokens: set<E.Token>
    var nextSeqno: nat
    var frozen: bool
    ghost var tombstones: seq<RangeTombstone>

    ghost predicate Valid()
      reads this, skiplist, index
    {
      skiplist.Valid() && index.Valid() && index.added == multiset(tombstones)
    }

    /** The memtable of the state machine that this object stands for. */
    ghost function View(): E.Memtable
      requires Valid()
      reads this, skiplist, index
    {
      E.Memtable(skiplist.Contents(), tombstones, tokens, nextSeqno)
    }

    constructor (start: nat)
      ensures Valid() && View() == E.EmptyMemtable(start) && !frozen && fresh(skiplist) && fresh(index)
    {
      skiplist := new SkipList();
      index := new RangeTombstoneIndex();
      tokens, nextSeqno, frozen := {}, start, false;
      tombstones := [];
    }

    /** `insert_prechecked`: a frozen memtable refuses; otherwise the entry is numbered and goes to the
        index, if it is a range delete, and to the skip list. The height is the skip list's draw. */
    method InsertPrechecked(e: Entry, token: E.Token, height: nat) returns (r: Result<nat>)
      requires Valid() && 1 <= height <= MAX_HEIGHT
      modifies this, skiplist, index
      ensures Valid() && frozen == old(frozen)
      ensures r == if frozen then Err(ResourceExhausted) else Ok(old(nextSeqno))
      ensures View() == if frozen then old(View()) else E.InsertEntry(old(View()), e, token)
    {
      hide SortedRuns.Insert, ValidList, Listed, SortedIndex;
      if frozen {
        return Err(ResourceExhausted);
      }
      var seqno := nextSeqno;
      var numbered := e.(seqno := seqno);
      nextSeqno := nextSeqno + 1;
      if numbered.kind == RangeDelete {
        var t := E.TombstoneOf(numbered);
        index.Add(t);
        tombstones := tombstones + [t];
      }
      if token != E.NO_TOKEN {
        tokens := tokens + {token};
      }
      skiplist.Insert(numbered, height);
      r := Ok(seqno);
    }

    /** `insert`: a known token is refused. */
    method Insert(e: Entry, token: E.Token, height: nat) returns (r: Result<nat>)
      requires Valid() && 1 <= height <= MAX_HEIGHT
      modifies this, skiplist, index
      ensures Valid() && frozen == old(frozen)
      ensures r == if frozen then Err(ResourceExhausted)
                   else if E.KnownToken([old(View())], token) then Err(DuplicateToken)
                   else Ok(old(nextSeqno))
      ensures View() == if r.Err? then old(View()) else E.InsertEntry(old(View()), e, token)
    {
      hide SortedRuns.Insert, ValidList, Listed, SortedIndex, E.InsertEntry;
      if frozen {
        return Err(ResourceExhausted);
      }
      if token != E.NO_TOKEN && token in tokens {
        assert [View()][0].tokens == tokens;
        return Err(DuplicateToken);
      }
      r := InsertPrechecked(e, token, height);
    }

    method IsCovered(e: Entry) returns (covered: bool)
      requires Valid()
      ensures covered == Covers(tombstones, RecordId(e.key), ItemKey(e.key), e.seqno)
    {
      covered := index.CoversKey(RecordId(e.key), ItemKey(e.key), e.seqno);
      CoversByMember(tombstones, RecordId(e.key), ItemKey(e.key), e.seqno);
    }

    /** `get` */
    method Get(k: Bytes) returns (r: Option<Entry>)
      requires Valid()
      ensures r == E.MemtableGet(View(), k)
    {
      hide ValidList, Listed, SortedIndex, Covers, RecordId, ItemKey;
      r := skiplist.Get(k);
      if r.Some? {
        assert r.value.key == k;
        var covered := IsCovered(r.value);
        if covered {
          return None;
        }
      }
    }

    /** `scan_with_tombstones`: one pass that skips older versions and covered ones. */
    method ScanWithTombstones(start: Bytes, end: Bytes) returns (r: seq<Entry>)
      requires Valid()
      ensures r == MemtableScan(View(), start, end)
    {
      hide ValidList, Listed, SortedIndex, Covers, RecordId, ItemKey, SortedRuns.InRange, Dedup, SkipKey, Unhidden;
      var found := skiplist.Range(start, end);
      ghost var whole := Unhidden(Dedup(found), tombstones);
      r := [];
      var last: Option<Bytes> := None;
      assert found[0..] == found && [] + whole == whole;
      for i := 0 to |found|
        invariant Valid() && r + Unhidden(Dedup(Left(found[i..], last)), tombstones) == whole
      {
        var e := found[i];
        Unfolds(found[i..], last, tombstones);
        assert found[i..][1..] == found[i + 1..];
        if last != Some(e.key) {
          last := Some(e.key);
          var covered := IsCovered(e);
          ghost var rest := Unhidden(Dedup(Left(found[i + 1..], last)), tombstones);
          if !covered {
            Regroup(r, [e], rest);
            r := r + [e];
          } else {
            assert [] + rest == rest;
          }
        }
      }
      NothingLeftOver(last, tombstones);
      assert found[|found|..] == [] && r + [] == r;
    }
  }

  /** What the pass has still to look at once it has seen the key `last`. */
  function Left(es: seq<Entry>, last: Option<Bytes>): seq<Entry> {
    if last.Some? then SkipKey(es, last.value) else es
  }

  lemma Unfolds(es: seq<Entry>, last: Option<Bytes>, ts: seq<RangeTombstone>)
    requires es != []
    ensures if last == Some(es[0].key) then Left(es, last) == Left(es[1..], last)
            else
              var e := es[0]; var rest := Unhidden(Dedup(Left(es[1..], Some(e.key))), ts);
              Unhidden(Dedup(Left(es, last)), ts) == (if Covers(ts, RecordId(e.key), ItemKey(e.key), e.seqno) then [] else [e]) + rest
  {
    hide Covers, RecordId, ItemKey;
    if last != Some(es[0].key) {
      assert Left(es, last) == es;
      var later := Dedup(SkipKey(es[1..], es[0].key));
      assert Dedup(es) == [es[0]] + later && ([es[0]] + later)[1..] == later;
    }
  }

  lemma NothingLeftOver(last: Option<Bytes>, ts: seq<RangeTombstone>)
    ensures Unhidden(Dedup(Left([], last)), ts) == []
  {
  }

  lemma CoversByMember(ts: seq<RangeTombstone>, record: Bytes, item: Bytes, seqno: nat)
    ensures Covers(ts, record, item, seqno) <==> exists t :: t in multiset(ts) && Hides(t, record, item, seqno)
  {
    hide Hides;
    if exists t :: t in multiset(ts) && Hides(t, record, item, seqno) {
      var t :| t in multiset(ts) && Hides(t, record, item, seqno);
      assert t in ts;
    }
    if Covers(ts, record, item, seqno) {
      var i :| 0 <= i < |ts| && Hides(ts[i], record, item, seqno);
      assert ts[i] in ts;
    }
  }
}
