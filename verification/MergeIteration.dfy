/** K-way merge with a heap of source heads (crates/flushdb-engine/src/merge_iterator.rs). */
module MergeIteration {
  import opened Wrappers
  import opened ByteStrings
  import opened CompositeKeys
  import opened Entries

  datatype HeapItem = HeapItem(key: CompositeKey, seqno: nat, source: nat)

  /** `a` compares greater than `b` in the max-heap, so it is popped first. */
  predicate PopsBefore(a: HeapItem, b: HeapItem) {
    Lt(a.key, b.key)
    || (a.key == b.key && (a.seqno > b.seqno || (a.seqno == b.seqno && a.source < b.source)))
  }

  function Head(sources: seq<seq<Entry>>, i: nat): HeapItem
    requires i < |sources| && sources[i] != []
  {
    HeapItem(sources[i][0].key, sources[i][0].seqno, i)
  }

  /** Source `b` holds the head that every other head yields to. */
  predicate IsBest(sources: seq<seq<Entry>>, b: nat) {
    && b < |sources|
    && sources[b] != []
    && forall i :: 0 <= i < |sources| && i != b && sources[i] != [] ==> PopsBefore(Head(sources, b), Head(sources, i))
  }

  predicate Exhausted(sources: seq<seq<Entry>>) {
    forall i :: 0 <= i < |sources| ==> sources[i] == []
  }

  /** The winning source, found without any heap. */
  function BestSource(sources: seq<seq<Entry>>): (b: nat)
    requires !Exhausted(sources)
    ensures IsBest(sources, b)
  {
    var n := |sources| - 1;
    var rest := sources[..n];
    assert sources == rest + [sources[n]];
    LtIsStrictTotalOrder();
    if Exhausted(rest) then
      n
    else
      var b := BestSource(rest);
      assert forall i :: 0 <= i < n && sources[i] != [] ==> Head(sources, i) == Head(rest, i);
      if sources[n] != [] && PopsBefore(Head(sources, n), Head(sources, b)) then n else b
  }

  lemma BestIsUnique(sources: seq<seq<Entry>>, a: nat, b: nat)
    requires IsBest(sources, a) && IsBest(sources, b)
    ensures a == b
  {
    LtIsStrictTotalOrder();
    var x, y := Head(sources, a), Head(sources, b);
    assert !(PopsBefore(x, y) && PopsBefore(y, x));
  }

  function Total(sources: seq<seq<Entry>>): nat {
    if sources == [] then 0 else |sources[0]| + Total(sources[1..])
  }

  lemma {:induction false} TotalDrops(sources: seq<seq<Entry>>, b: nat)
    requires b < |sources| && sources[b] != []
    ensures Total(sources[b := sources[b][1..]]) == Total(sources) - 1
  {
    if b > 0 {
      TotalDrops(sources[1..], b - 1);
      assert sources[b := sources[b][1..]][1..] == sources[1..][b - 1 := sources[1..][b - 1][1..]];
    }
  }

  function Advance(sources: seq<seq<Entry>>, b: nat): seq<seq<Entry>>
    requires b < |sources| && sources[b] != []
  {
    sources[b := sources[b][1..]]
  }

  /** The reference merge: repeatedly take the winning head. */
  function Merge(sources: seq<seq<Entry>>): seq<Entry>
    decreases Total(sources)
  {
    if Exhausted(sources) then []
    else
      var b := BestSource(sources);
      TotalDrops(sources, b);
      [sources[b][0]] + Merge(Advance(sources, b))
  }

  lemma {:induction false} MergeStep(sources: seq<seq<Entry>>, b: nat)
    requires IsBest(sources, b)
    ensures Merge(sources) == [sources[b][0]] + Merge(Advance(sources, b))
    ensures Merge(sources)[1..] == Merge(Advance(sources, b))
  {
    BestIsUnique(sources, b, BestSource(sources));
  }

  function SkipKey(s: seq<Entry>, k: Bytes): (r: seq<Entry>)
    ensures |r| <= |s|
  {
    if s != [] && s[0].key == k then SkipKey(s[1..], k) else s
  }

  /** Keep the first entry of every run of equal keys. */
  function Dedup(s: seq<Entry>): seq<Entry>
    decreases |s|
  {
    if s == [] then [] else [s[0]] + Dedup(SkipKey(s[1..], s[0].key))
  }

  // --- What the merge computes ---

  /** Nothing is lost, repeated or invented. */
  lemma {:induction false} MergeIsPermutation(sources: seq<seq<Entry>>)
    ensures multiset(Merge(sources)) == multiset(Flatten(sources))
    decreases Total(sources)
  {
    if Exhausted(sources) {
      FlattenEmpty(sources);
    } else {
      var b := BestSource(sources);
      TotalDrops(sources, b);
      MergeIsPermutation(Advance(sources, b));
      FlattenAdvance(sources, b);
    }
  }

  lemma {:induction false} FlattenEmpty(sources: seq<seq<Entry>>)
    requires Exhausted(sources)
    ensures Flatten(sources) == []
  {
    if sources != [] {
      FlattenEmpty(sources[1..]);
    }
  }

  lemma {:induction false} FlattenAdvance(sources: seq<seq<Entry>>, b: nat)
    requires b < |sources| && sources[b] != []
    ensures multiset(Flatten(sources)) == multiset{sources[b][0]} + multiset(Flatten(Advance(sources, b)))
  {
    if b == 0 {
      assert sources[0] == [sources[0][0]] + sources[0][1..];
      assert Advance(sources, 0)[1..] == sources[1..];
    } else {
      FlattenAdvance(sources[1..], b - 1);
      assert Advance(sources, b)[1..] == Advance(sources[1..], b - 1);
    }
  }

  lemma MergeMember(sources: seq<seq<Entry>>, e: Entry)
    ensures e in Merge(sources) <==> e in Flatten(sources)
  {
    MergeIsPermutation(sources);
    assert e in Merge(sources) <==> e in multiset(Merge(sources));
    assert e in Flatten(sources) <==> e in multiset(Flatten(sources));
  }

  ghost predicate AllSorted(sources: seq<seq<Entry>>) {
    forall i :: 0 <= i < |sources| ==> Sorted(sources[i])
  }

  /** Sorted sources merge into one sorted list. */
  lemma {:induction false} MergeIsSorted(sources: seq<seq<Entry>>)
    requires AllSorted(sources)
    ensures Sorted(Merge(sources))
    decreases Total(sources)
  {
    if !Exhausted(sources) {
      var b := BestSource(sources);
      var rest := Advance(sources, b);
      TotalDrops(sources, b);
      MergeIsSorted(rest);
      forall j | 0 <= j < |Merge(rest)|
        ensures !Before(Merge(rest)[j], sources[b][0])
      {
        MergeMember(rest, Merge(rest)[j]);
        FlattenMember(rest, Merge(rest)[j]);
        HeadIsFirst(sources, b, Merge(rest)[j]);
      }
    }
  }

  lemma HeadIsFirst(sources: seq<seq<Entry>>, b: nat, e: Entry)
    requires AllSorted(sources) && IsBest(sources, b)
    requires exists i :: 0 <= i < |sources| && e in Advance(sources, b)[i]
    ensures !Before(e, sources[b][0])
  {
    var i :| 0 <= i < |sources| && e in Advance(sources, b)[i];
    assert e in sources[i];
    var p :| 0 <= p < |sources[i]| && sources[i][p] == e;
    LtIsStrictTotalOrder();
    if p > 0 {
      assert !Before(sources[i][p], sources[i][0]);
    }
    if i != b {
      assert PopsBefore(Head(sources, b), Head(sources, i));
    }
  }

  lemma {:induction false} SkipKeySuffix(s: seq<Entry>, k: Bytes) returns (n: nat)
    ensures n <= |s| && SkipKey(s, k) == s[n..]
    ensures forall i :: 0 <= i < n ==> s[i].key == k
    ensures n < |s| ==> s[n].key != k
  {
    n := 0;
    if s != [] && s[0].key == k {
      n := SkipKeySuffix(s[1..], k);
      assert s[1..][n..] == s[n + 1..];
      assert forall i :: 0 <= i < n ==> s[1..][i] == s[i + 1];
      n := n + 1;
    }
  }

  /** Length of the run of equal keys that `s` starts with. */
  lemma FirstRun(s: seq<Entry>) returns (n: nat)
    requires s != []
    ensures 0 < n <= |s| && SkipKey(s[1..], s[0].key) == s[n..]
    ensures forall i :: 0 <= i < n ==> s[i].key == s[0].key
    ensures n < |s| ==> s[n].key != s[0].key
  {
    n := SkipKeySuffix(s[1..], s[0].key);
    assert s[1..][n..] == s[n + 1..];
    assert forall i :: 0 <= i < |s| - 1 ==> s[1..][i] == s[i + 1];
    n := n + 1;
  }

  ghost predicate Dominates(e: Entry, s: seq<Entry>) {
    forall f :: f in s && f.key == e.key ==> f.seqno <= e.seqno
  }

  ghost predicate HasKey(d: seq<Entry>, k: Bytes) {
    exists e :: e in d && e.key == k
  }

  /** `d` holds exactly the highest-sequence version of every key of `s`, in key order. */
  ghost predicate IsNewestPerKey(d: seq<Entry>, s: seq<Entry>) {
    && KeysIncreasing(d)
    && (forall e :: e in d ==> e in s && Dominates(e, s))
    && (forall f :: f in s ==> HasKey(d, f.key))
  }

  /** Deduplicating a sorted list keeps exactly the newest version of every key. */
  lemma {:induction false} DedupKeepsNewest(s: seq<Entry>)
    requires Sorted(s)
    ensures IsNewestPerKey(Dedup(s), s)
    decreases |s|
  {
    if s != [] {
      hide Lt;
      var first := s[0];
      var n := FirstRun(s);
      var t := s[n..];
      DedupKeepsNewest(t);
      forall f | f in s
        ensures InRun(f, first) || (f in t && Lt(first.key, f.key))
      {
        var p :| 0 <= p < |s| && s[p] == f;
        SplitAtRun(s, n, p);
      }
      forall f | f in t
        ensures f in s && Lt(first.key, f.key)
      {
        var p :| n <= p < |s| && s[p] == f;
        SplitAtRun(s, n, p);
      }
      ConsNewest(s, first, t, Dedup(t));
    }
  }

  ghost predicate InRun(f: Entry, first: Entry) {
    f.key == first.key && f.seqno <= first.seqno
  }

  lemma ConsNewest(s: seq<Entry>, first: Entry, t: seq<Entry>, d: seq<Entry>)
    requires first in s
    requires forall f :: f in t ==> f in s && Lt(first.key, f.key)
    requires forall f :: f in s ==> InRun(f, first) || (f in t && Lt(first.key, f.key))
    requires IsNewestPerKey(d, t)
    ensures IsNewestPerKey([first] + d, s)
  {
    hide Lt;
    LtIsStrictTotalOrder();
    var all := [first] + d;
    assert first in all;
    assert forall i :: 0 < i < |all| ==> all[i] == d[i - 1] && d[i - 1] in d;
    forall e | e in all
      ensures e in s && Dominates(e, s)
    {
      if e != first {
        assert e in d;
        assert Dominates(e, t);
      }
    }
    forall f | f in s
      ensures HasKey(all, f.key)
    {
      if f in t {
        assert HasKey(d, f.key);
        var e :| e in d && e.key == f.key;
        assert e in all;
      }
    }
  }

  lemma SplitAtRun(s: seq<Entry>, n: nat, p: nat)
    requires Sorted(s) && 0 < n <= |s| && p < |s|
    requires forall i :: 0 <= i < n ==> s[i].key == s[0].key
    requires n < |s| ==> s[n].key != s[0].key
    ensures p < n ==> s[p].key == s[0].key && s[p].seqno <= s[0].seqno
    ensures p >= n ==> s[p] in s[n..] && Lt(s[0].key, s[p].key)
  {
    LtIsStrictTotalOrder();
    if 0 < p < n {
      assert !Before(s[p], s[0]);
    } else if p >= n {
      assert s[n..][p - n] == s[p];
      assert !Before(s[n], s[0]);
      if p > n {
        assert !Before(s[p], s[n]);
      }
    }
  }

  /** The merged and deduplicated list holds exactly the newest version of every key of the
      sources, in key order. */
  lemma {:induction false} MergeKeepsNewest(sources: seq<seq<Entry>>)
    requires AllSorted(sources)
    ensures IsNewestPerKey(Dedup(Merge(sources)), Flatten(sources))
  {
    MergeIsSorted(sources);
    var m := Merge(sources);
    DedupKeepsNewest(m);
    forall e
      ensures e in m <==> e in Flatten(sources)
    {
      MergeMember(sources, e);
    }
    forall e | e in Dedup(m)
      ensures Dominates(e, Flatten(sources))
    {
      assert Dominates(e, m);
    }
  }

  // --- The heap ---

  /** The heap holds exactly one item for each of the first `n` sources that is not exhausted:
      that source's head. */
  ghost predicate Tracks(heap: seq<HeapItem>, remaining: seq<seq<Entry>>, n: nat) {
    && n <= |remaining|
    && (forall a :: 0 <= a < |heap| ==> TracksItem(heap[a], remaining, n))
    && (forall a, b :: 0 <= a < b < |heap| ==> heap[a].source != heap[b].source)
    && (forall i :: 0 <= i < n && remaining[i] != [] ==> HoldsSource(heap, i))
  }

  ghost predicate TracksItem(item: HeapItem, remaining: seq<seq<Entry>>, n: nat) {
    item.source < n <= |remaining| && remaining[item.source] != [] && item == Head(remaining, item.source)
  }

  ghost predicate HoldsSource(heap: seq<HeapItem>, i: nat) {
    exists a :: 0 <= a < |heap| && heap[a].source == i
  }

  lemma PushTracks(heap: seq<HeapItem>, remaining: seq<seq<Entry>>, n: nat)
    requires Tracks(heap, remaining, n) && n < |remaining|
    ensures remaining[n] == [] ==> Tracks(heap, remaining, n + 1)
    ensures remaining[n] != [] ==> Tracks(heap + [Head(remaining, n)], remaining, n + 1)
  {
    if remaining[n] != [] {
      var pushed := heap + [Head(remaining, n)];
      forall i | 0 <= i < n + 1 && remaining[i] != []
        ensures HoldsSource(pushed, i)
      {
        if i < n {
          var a :| 0 <= a < |heap| && heap[a].source == i;
          assert pushed[a].source == i;
        } else {
          assert pushed[|heap|].source == n;
        }
      }
    }
  }

  /** Popping the item of source `b`, advancing that source and pushing its next head. */
  function Replace(heap: seq<HeapItem>, best: nat, remaining: seq<seq<Entry>>): seq<HeapItem>
    requires best < |heap| && heap[best].source < |remaining|
  {
    var b := heap[best].source;
    heap[..best] + heap[best + 1..] + if remaining[b] == [] then [] else [Head(remaining, b)]
  }

  lemma ReplaceTracks(heap: seq<HeapItem>, best: nat, remaining: seq<seq<Entry>>)
    requires Tracks(heap, remaining, |remaining|) && best < |heap|
    ensures Tracks(Replace(heap, best, Advance(remaining, heap[best].source)), Advance(remaining, heap[best].source), |remaining|)
  {
    var b := heap[best].source;
    var after := Advance(remaining, b);
    var now := Replace(heap, best, after);
    forall a | 0 <= a < |now|
      ensures TracksItem(now[a], after, |after|)
      ensures a < |heap| - 1 ==> now[a] == (if a < best then heap[a] else heap[a + 1]) && now[a].source != b
      ensures a == |heap| - 1 ==> now[a].source == b
    {
      if a < |heap| - 1 {
        assert now[a] == if a < best then heap[a] else heap[a + 1];
        assert TracksItem(now[a], remaining, |remaining|);
      }
    }
    forall i | 0 <= i < |after| && after[i] != []
      ensures HoldsSource(now, i)
    {
      if i == b {
        assert now[|heap| - 1].source == i;
      } else {
        assert HoldsSource(heap, i);
        var a :| 0 <= a < |heap| && heap[a].source == i;
        var p := if a < best then a else a - 1;
        assert now[p] == heap[a];
      }
    }
  }

  // --- The iterator ---

  ghost predicate InRange(sources: seq<seq<Entry>>, positions: seq<nat>) {
    |positions| == |sources| && forall i :: 0 <= i < |sources| ==> positions[i] <= |sources[i]|
  }

  /** What each source has left to give. */
  ghost function Remaining(sources: seq<seq<Entry>>, positions: seq<nat>): (r: seq<seq<Entry>>)
    requires InRange(sources, positions)
    ensures |r| == |sources|
    ensures forall i :: 0 <= i < |r| ==> r[i] == sources[i][positions[i]..]
  {
    seq(|sources|, i requires 0 <= i < |sources| => sources[i][positions[i]..])
  }

  class MergeIterator {
    const sources: seq<seq<Entry>>
    var positions: seq<nat>
    var heap: seq<HeapItem>

    ghost function Rest(): seq<Entry>
      requires InRange(sources, positions)
      reads this
    {
      Merge(Remaining(sources, positions))
    }

    ghost predicate Valid()
      reads this
    {
      InRange(sources, positions) && Tracks(heap, Remaining(sources, positions), |sources|)
    }

    constructor (sources: seq<seq<Entry>>)
      ensures Valid() && this.sources == sources
      ensures Rest() == Merge(sources)
    {
      this.sources := sources;
      this.positions := seq(|sources|, _ => 0);
      var heap: seq<HeapItem> := [];
      var i := 0;
      while i < |sources|
        invariant 0 <= i <= |sources|
        invariant Tracks(heap, sources, i)
      {
        PushTracks(heap, sources, i);
        if sources[i] != [] {
          heap := heap + [HeapItem(sources[i][0].key, sources[i][0].seqno, i)];
        }
        i := i + 1;
      }
      this.heap := heap;
      new;
      assert Remaining(sources, positions) == sources;
    }

    /** Index of the greatest heap item. */
    method Top() returns (best: nat)
      requires Valid() && heap != []
      ensures best < |heap|
      ensures IsBest(Remaining(sources, positions), heap[best].source)
    {
      LtIsStrictTotalOrder();
      best := 0;
      var i := 1;
      while i < |heap|
        invariant 1 <= i <= |heap| && best < i
        invariant forall a :: 0 <= a < i && a != best ==> PopsBefore(heap[best], heap[a])
      {
        if PopsBefore(heap[i], heap[best]) {
          best := i;
        }
        i := i + 1;
      }
      var b := heap[best].source;
      assert TracksItem(heap[best], Remaining(sources, positions), |sources|);
      forall i | 0 <= i < |sources| && i != b && Remaining(sources, positions)[i] != []
        ensures PopsBefore(Head(Remaining(sources, positions), b), Head(Remaining(sources, positions), i))
      {
        assert HoldsSource(heap, i);
        var a :| 0 <= a < |heap| && heap[a].source == i;
        assert TracksItem(heap[a], Remaining(sources, positions), |sources|);
      }
    }

    method IsExhausted() returns (r: bool)
      requires Valid()
      ensures r <==> Rest() == []
      ensures r <==> heap == []
    {
      r := heap == [];
      if r {
        assert Exhausted(Remaining(sources, positions)) by {
          forall i | 0 <= i < |sources|
            ensures Remaining(sources, positions)[i] == []
          {
            assert Remaining(sources, positions)[i] != [] ==> HoldsSource(heap, i);
          }
        }
      } else {
        assert TracksItem(heap[0], Remaining(sources, positions), |sources|);
      }
    }

    method NextEntry() returns (r: Option<Entry>)
      requires Valid()
      modifies this
      ensures Valid()
      ensures old(Rest()) == [] ==> r == None && Rest() == []
      ensures old(Rest()) != [] ==> r == Some(old(Rest())[0]) && Rest() == old(Rest())[1..]
    {
      var done := IsExhausted();
      if done {
        return None;
      }
      var best := Top();
      ghost var before := Remaining(sources, positions);
      var b := heap[best].source;
      MergeStep(before, b);
      ReplaceTracks(heap, best, before);
      ghost var target := Replace(heap, best, Advance(before, b));
      var entry := sources[b][positions[b]];
      heap := heap[..best] + heap[best + 1..];
      positions := positions[b := positions[b] + 1];
      assert Remaining(sources, positions) == Advance(before, b);
      if positions[b] < |sources[b]| {
        heap := heap + [HeapItem(sources[b][positions[b]].key, sources[b][positions[b]].seqno, b)];
      }
      assert heap == target;
      r := Some(entry);
    }

    method NextDeduped() returns (r: Option<Entry>)
      requires Valid()
      modifies this
      ensures Valid()
      ensures old(Dedup(Rest())) == [] ==> r == None && Dedup(Rest()) == []
      ensures old(Dedup(Rest())) != [] ==> r == Some(old(Dedup(Rest()))[0]) && Dedup(Rest()) == old(Dedup(Rest()))[1..]
    {
      r := NextEntry();
      if r == None {
        return;
      }
      var entry := r.value;
      ghost var tail := Rest();
      while true
        invariant Valid()
        invariant SkipKey(Rest(), entry.key) == SkipKey(tail, entry.key)
        decreases |Rest()|
      {
        var done := IsExhausted();
        if done {
          break;
        }
        var top := Top();
        BestIsUnique(Remaining(sources, positions), heap[top].source, BestSource(Remaining(sources, positions)));
        assert TracksItem(heap[top], Remaining(sources, positions), |sources|);
        if heap[top].key != entry.key {
          break;
        }
        var _ := NextEntry();
      }
      assert Rest() == SkipKey(tail, entry.key);
    }
  }
}
