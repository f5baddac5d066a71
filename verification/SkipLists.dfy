/** The index-based skip list of a memtable (crates/flushdb-engine/src/skiplist.rs). */
module SkipLists {
  import opened Wrappers
  import opened ByteStrings
  import opened CompositeKeys
  import opened Entries
  import SortedRuns

  const MAX_HEIGHT: nat := 12

  datatype Node = Node(entry: Entry, height: nat, next: seq<Option<nat>>)

  // --- The structure ---

  /** `order` lists the nodes by position, the head first; `rank` is its inverse. */
  ghost predicate Ranked(n: nat, order: seq<nat>, rank: seq<nat>) {
    && n > 0 && |order| == n && |rank| == n
    && (forall p :: 0 <= p < n ==> order[p] < n && rank[order[p]] == p)
    && (forall i :: 0 <= i < n ==> rank[i] < n && order[rank[i]] == i)
    && order[0] == 0
  }

  ghost predicate GoodNode(x: Node, height: nat) {
    1 <= x.height <= height <= MAX_HEIGHT && |x.next| == MAX_HEIGHT
  }

  ghost predicate GoodNodes(nodes: seq<Node>, height: nat) {
    && nodes != [] && GoodNode(nodes[0], MAX_HEIGHT) && nodes[0].height == MAX_HEIGHT && height <= MAX_HEIGHT
    && forall i :: 1 <= i < |nodes| ==> GoodNode(nodes[i], height)
  }

  /** No node strictly between two positions reaches level `l`. */
  ghost predicate Gap(nodes: seq<Node>, order: seq<nat>, l: nat, from: int, to: int)
    requires |order| == |nodes| && (forall p :: 0 <= p < |order| ==> order[p] < |nodes|)
  {
    forall p :: 0 <= p < |order| && from < p < to ==> nodes[order[p]].height <= l
  }

  /** The link of node `i` at level `l` goes to the next node that reaches that level: each level is
      the sublist of the level below it that is tall enough. */
  ghost predicate Link(nodes: seq<Node>, order: seq<nat>, rank: seq<nat>, i: nat, l: nat)
    requires Ranked(|nodes|, order, rank) && i < |nodes| && l < |nodes[i].next|
  {
    match nodes[i].next[l]
    case None => Gap(nodes, order, l, rank[i], |nodes|)
    case Some(j) => j < |nodes| && rank[i] < rank[j] && nodes[j].height > l && Gap(nodes, order, l, rank[i], rank[j])
  }

  ghost predicate Linked(nodes: seq<Node>, order: seq<nat>, rank: seq<nat>, height: nat)
    requires Ranked(|nodes|, order, rank) && GoodNodes(nodes, height)
  {
    forall i, l :: 0 <= i < |nodes| && 0 <= l < nodes[i].height ==> Link(nodes, order, rank, i, l)
  }

  /** The entries in list order. */
  ghost function Listed(nodes: seq<Node>, order: seq<nat>): (s: seq<Entry>)
    requires 0 < |order| == |nodes| && forall p :: 0 <= p < |order| ==> order[p] < |nodes|
    ensures |s| == |nodes| - 1
    ensures forall p :: 0 <= p < |s| ==> s[p] == nodes[order[p + 1]].entry
  {
    seq(|nodes| - 1, p requires 0 <= p < |nodes| - 1 => nodes[order[p + 1]].entry)
  }

  ghost predicate ValidList(nodes: seq<Node>, order: seq<nat>, rank: seq<nat>, height: nat) {
    && Ranked(|nodes|, order, rank)
    && GoodNodes(nodes, height) && height >= 1
    && Linked(nodes, order, rank, height)
    && StrictlySorted(Listed(nodes, order))
  }

  // --- Searching ---

  /** The cursor of an iterator that has `p` entries behind it. */
  ghost predicate At(nodes: seq<Node>, order: seq<nat>, rank: seq<nat>, height: nat, current: Option<nat>, p: nat): (b: bool)
    requires ValidList(nodes, order, rank, height)
    ensures b && current.None? ==> p == |Listed(nodes, order)|
    ensures b && current.Some? ==> current.value < |nodes| && |nodes[current.value].next| == MAX_HEIGHT
    ensures b && current.Some? ==> p < |Listed(nodes, order)| && nodes[current.value].entry == Listed(nodes, order)[p]
  {
    p < |nodes| && current == if p + 1 < |nodes| then Some(order[p + 1]) else None
  }

  /** The two comparisons a descent makes. */
  function EntryBelow(e: Entry): Entry -> bool {
    (x: Entry) => Before(x, e)
  }

  function KeyBelow(k: Bytes): Entry -> bool {
    (x: Entry) => Lt(x.key, k)
  }

  /** A test that holds of a prefix of the list. */
  ghost predicate Prefix(s: seq<Entry>, below: Entry -> bool, cut: nat) {
    cut <= |s| && forall p :: 0 <= p < |s| ==> (below(s[p]) <==> p < cut)
  }

  ghost predicate AllBelow(s: seq<Entry>, k: Bytes) {
    forall e :: e in s ==> Lt(e.key, k)
  }

  /** The first entry of the list whose key is not below `k`. */
  ghost predicate IsFirstFrom(s: seq<Entry>, k: Bytes, x: Entry) {
    x in s && !Lt(x.key, k) && forall e :: e in s ==> Lt(e.key, k) || e == x || Before(x, e)
  }

  /** Where a descent stops at level `l`: the last node before the cut that reaches the level. */
  ghost predicate Stop(nodes: seq<Node>, rank: seq<nat>, u: nat, l: nat, cut: nat)
    requires |rank| == |nodes|
  {
    && u < |nodes| && l < nodes[u].height <= |nodes[u].next| && rank[u] <= cut
    && (nodes[u].next[l].Some? ==> nodes[u].next[l].value < |nodes| && rank[nodes[u].next[l].value] > cut)
  }

  class SkipList {
    var nodes: seq<Node>
    var height: nat
    var len: nat
    ghost var order: seq<nat>
    ghost var rank: seq<nat>

    ghost predicate Valid()
      reads this
    {
      ValidList(nodes, order, rank, height) && len == |nodes| - 1
    }

    ghost function Contents(): seq<Entry>
      requires Valid()
      reads this
    {
      Listed(nodes, order)
    }

    constructor ()
      ensures Valid() && Contents() == []
    {
      var sentinel := Entry([95, 95, 115, 101, 110, 116, 105, 110, 101, 108, 95, 95, 0], [], [], Put, 0);
      nodes := [Node(sentinel, MAX_HEIGHT, seq(MAX_HEIGHT, _ => None))];
      height, len := 1, 0;
      order, rank := [0], [0];
    }

    /** The descent shared by `insert`, `get` and `seek_to`: at each level go right while the next
        node is below the target, then step down. */
    method Descend(below: Entry -> bool, ghost cut: nat) returns (update: seq<nat>)
      requires Valid() && Prefix(Contents(), below, cut)
      ensures Stops(nodes, rank, update, cut)
    {
      update := seq(MAX_HEIGHT, _ => 0);
      forall l | height <= l < MAX_HEIGHT
        ensures Stop(nodes, rank, 0, l, cut)
      {
        assert Link(nodes, order, rank, 0, l);
      }
      var current := 0;
      var level := height;
      while level > 0
        invariant 0 <= level <= height && |update| == MAX_HEIGHT
        invariant current < |nodes| && rank[current] <= cut && nodes[current].height >= level
        invariant forall l :: level <= l < MAX_HEIGHT ==> Stop(nodes, rank, update[l], l, cut)
      {
        level := level - 1;
        var next := nodes[current].next[level];
        while next.Some? && below(nodes[next.value].entry)
          invariant current < |nodes| && rank[current] <= cut && nodes[current].height > level
          invariant next == nodes[current].next[level]
          invariant Link(nodes, order, rank, current, level)
          decreases |nodes| - rank[current]
        {
          BelowIsBeforeCut(nodes, order, rank, below, cut, next.value);
          current := next.value;
          next := nodes[current].next[level];
        }
        if next.Some? {
          BelowIsBeforeCut(nodes, order, rank, below, cut, next.value);
        }
        update := update[level := current];
      }
    }

    /** Insertion with a node of any height between 1 and 12. An entry with the same key and sequence
        number is replaced in place. */
    method Insert(e: Entry, h: nat)
      requires Valid() && 1 <= h <= MAX_HEIGHT
      modifies this
      ensures Valid()
      ensures Contents() == SortedRuns.Insert(old(Contents()), e)
    {
      hide ValidList, SortedRuns.Insert, Stops, Prefix, NewOrder, NewRank, Spliced;
      if h > height {
        RaisedHeight(nodes, order, rank, height, h);
        height := h;
      }
      ghost var cut := CutIn(nodes, order, rank, height, e);
      var update := Descend(EntryBelow(e), cut);
      NextIsCut(nodes, order, rank, height, update, cut);
      var next := nodes[update[0]].next[0];
      if next.Some? && nodes[next.value].entry.key == e.key && nodes[next.value].entry.seqno == e.seqno {
        ReplaceKeeps(nodes, order, rank, height, next.value, e, cut);
        nodes := nodes[next.value := nodes[next.value].(entry := e)];
      } else {
        SpliceInserts(nodes, order, rank, height, update, e, h, cut);
        LinkIn(update, e, h);
        order, rank, len := NewOrder(order, cut), NewRank(rank, cut), len + 1;
      }
    }

    /** `seek_to`: the first node whose key is not below `k`. */
    method SeekTo(k: Bytes) returns (current: Option<nat>, ghost cut: nat)
      requires Valid()
      ensures cut < |nodes| && Prefix(Contents(), KeyBelow(k), cut)
      ensures At(nodes, order, rank, height, current, cut)
      ensures current.None? <==> AllBelow(Contents(), k)
      ensures current.Some? ==> current.value < |nodes| && IsFirstFrom(Contents(), k, nodes[current.value].entry)
    {
      cut := KeyCut(Contents(), k);
      assert cut < |nodes|;
      var update := Descend(KeyBelow(k), cut);
      NextIsCut(nodes, order, rank, height, update, cut);
      CutIsFirst(Contents(), k, cut);
      current := nodes[update[0]].next[0];
    }

    /** `get` returns the version with the highest sequence number. */
    method Get(k: Bytes) returns (r: Option<Entry>)
      requires Valid()
      ensures r == SortedRuns.Lookup(Contents(), k)
      ensures r == Newest(Contents(), k)
    {
      hide AllBelow, IsFirstFrom;
      var current, cut := SeekTo(k);
      LookupAtCut(Contents(), k, cut);
      SortedRuns.LookupIsNewest(Contents(), k);
      if current.Some? && nodes[current.value].entry.key == k {
        return Some(nodes[current.value].entry);
      }
      return None;
    }

    /** `range`: exactly the entries with keys in [start, end), in order. */
    method Range(start: Bytes, end: Bytes) returns (r: seq<Entry>)
      requires Valid()
      ensures r == SortedRuns.InRange(Contents(), start, end)
    {
      hide AllBelow, IsFirstFrom, At, Ranked, GoodNodes, Linked, Lt, SortedRuns.InRange;
      var current, cut := SeekTo(start);
      r := [];
      ghost var p := cut;
      while current.Some? && Lt(nodes[current.value].entry.key, end)
        invariant cut <= p <= |Contents()| && At(nodes, order, rank, height, current, p)
        invariant r == Contents()[cut..p]
        invariant forall q :: cut <= q < p ==> Lt(Contents()[q].key, end)
        decreases |nodes| - p
      {
        NextAt(nodes, order, rank, height, current.value, p);
        r := r + [nodes[current.value].entry];
        current := nodes[current.value].next[0];
        p := p + 1;
      }
      RangeIsSlice(Contents(), start, end, cut, p);
    }

    /** `scan_record`: exactly the entries of one record; an invalid record id yields nothing. */
    method ScanRecord(record: Bytes) returns (r: seq<Entry>)
      requires Valid()
      requires forall e :: e in Contents() ==> HasSeparator(e.key)
      ensures !ValidRecordId(record) ==> r == []
      ensures ValidRecordId(record) ==> r == OfRecord(Contents(), record)
    {
      hide AllBelow, IsFirstFrom, At, Ranked, GoodNodes, Linked, RecordId, HasSeparator, OfRecord, Lt;
      r := [];
      var start := MinKeyForRecord(record);
      if start.Err? {
        return;
      }
      var current, cut := SeekTo(start.value);
      ghost var p := cut;
      while current.Some? && RecordId(nodes[current.value].entry.key) == record
        invariant cut <= p <= |Contents()| && At(nodes, order, rank, height, current, p)
        invariant r == Contents()[cut..p]
        invariant forall q :: cut <= q < p ==> RecordId(Contents()[q].key) == record
        decreases |nodes| - p
      {
        NextAt(nodes, order, rank, height, current.value, p);
        r := r + [nodes[current.value].entry];
        current := nodes[current.value].next[0];
        p := p + 1;
      }
      RecordIsSlice(Contents(), record, cut, p);
    }

    /** Push the new node and link it in, level by level. */
    method LinkIn(update: seq<nat>, e: Entry, h: nat)
      requires h <= MAX_HEIGHT && Spliceable(nodes, update)
      modifies `nodes
      ensures nodes == Spliced(old(nodes), update, e, h, h)
    {
      ghost var before := nodes;
      SpliceStart(before, update, e, h);
      nodes := nodes + [Node(e, h, seq(MAX_HEIGHT, _ => None))];
      var level := 0;
      while level < h
        invariant 0 <= level <= h
        invariant nodes == Spliced(before, update, e, h, level)
      {
        var prev := update[level];
        SpliceStep(before, update, e, h, level);
        nodes := nodes[|nodes| - 1 := nodes[|nodes| - 1].(next := nodes[|nodes| - 1].next[level := nodes[prev].next[level]])];
        nodes := nodes[prev := nodes[prev].(next := nodes[prev].next[level := Some(|nodes| - 1)])];
        level := level + 1;
      }
    }
  }

  lemma RaisedHeight(nodes: seq<Node>, order: seq<nat>, rank: seq<nat>, height: nat, h: nat)
    requires ValidList(nodes, order, rank, height) && height <= h <= MAX_HEIGHT
    ensures ValidList(nodes, order, rank, h)
  {
  }

  lemma BelowIsBeforeCut(nodes: seq<Node>, order: seq<nat>, rank: seq<nat>, below: Entry -> bool, cut: nat, j: nat)
    requires Ranked(|nodes|, order, rank) && Prefix(Listed(nodes, order), below, cut)
    requires j < |nodes| && rank[j] > 0
    ensures below(nodes[j].entry) <==> rank[j] <= cut
  {
    assert Listed(nodes, order)[rank[j] - 1] == nodes[j].entry;
  }

  // --- Inserting ---

  /** Number of entries before the place of `e`. */
  lemma {:induction false} CutFor(s: seq<Entry>, e: Entry) returns (cut: nat)
    requires StrictlySorted(s)
    ensures Prefix(s, EntryBelow(e), cut)
    ensures SortedRuns.Insert(s, e) ==
            if cut < |s| && SortedRuns.SameSlot(s[cut], e) then s[cut := e] else s[..cut] + [e] + s[cut..]
  {
    cut := 0;
    if s != [] {
      SortedRuns.HeadFirst(s, e);
      SortedRuns.TailSorted(s);
      if Before(s[0], e) {
        var c := CutFor(s[1..], e);
        cut := c + 1;
        hide Before, StrictlySorted;
        ConsEdits(s, c, e);
      } else {
        NoneBefore(s, e);
        hide Before, StrictlySorted;
        HeadEdits(s, e);
      }
    }
  }

  /** Replacing or inserting in the tail, seen from the whole list. */
  lemma ConsEdits(s: seq<Entry>, c: nat, e: Entry)
    requires s != [] && c <= |s| - 1
    ensures forall p :: 0 < p < |s| ==> s[p] == s[1..][p - 1]
    ensures c < |s| - 1 ==> s[c + 1 := e] == [s[0]] + s[1..][c := e]
    ensures s[..c + 1] + [e] + s[c + 1..] == [s[0]] + (s[1..][..c] + [e] + s[1..][c..])
  {
  }

  lemma HeadEdits(s: seq<Entry>, e: Entry)
    requires s != []
    ensures s[..0] + [e] + s[0..] == [e] + s
    ensures s[0 := e] == [e] + s[1..]
  {
  }

  lemma NoneBefore(s: seq<Entry>, e: Entry)
    requires StrictlySorted(s) && s != [] && !Before(s[0], e)
    ensures forall p :: 0 <= p < |s| ==> !Before(s[p], e)
  {
    LtIsStrictTotalOrder();
    hide Lt;
    forall p | 0 <= p < |s|
      ensures !Before(s[p], e)
    {
      assert p > 0 ==> Before(s[0], s[p]);
    }
  }

  /** The cut of an insertion, and what inserting there means for the node at the cut. */
  lemma CutIn(nodes: seq<Node>, order: seq<nat>, rank: seq<nat>, height: nat, e: Entry) returns (cut: nat)
    requires ValidList(nodes, order, rank, height)
    ensures cut < |nodes| && Prefix(Listed(nodes, order), EntryBelow(e), cut)
    ensures var s := Listed(nodes, order);
            SortedRuns.Insert(s, e) ==
            if cut + 1 < |nodes| && SortedRuns.SameSlot(nodes[order[cut + 1]].entry, e) then s[cut := e] else s[..cut] + [e] + s[cut..]
  {
    cut := CutFor(Listed(nodes, order), e);
  }

  /** The level-0 successor of the stopping node is the node at the cut. */
  lemma NextIsCut(nodes: seq<Node>, order: seq<nat>, rank: seq<nat>, height: nat, update: seq<nat>, cut: nat)
    requires ValidList(nodes, order, rank, height)
    requires cut < |nodes| && Stops(nodes, rank, update, cut)
    ensures |update| == MAX_HEIGHT && update[0] < |nodes| && |nodes[update[0]].next| == MAX_HEIGHT
    ensures |order| == |nodes| && (cut + 1 < |nodes| ==> order[cut + 1] < |nodes|)
    ensures nodes[update[0]].next[0] == if cut + 1 < |nodes| then Some(order[cut + 1]) else None
  {
    var u := update[0];
    assert Stop(nodes, rank, u, 0, cut);
    assert Link(nodes, order, rank, u, 0);
    assert forall p :: 0 <= p < |nodes| ==> nodes[order[p]].height >= 1;
    var m := order[cut];
    assert rank[m] == cut && nodes[order[cut]].height >= 1;
  }

  lemma ReplaceKeeps(nodes: seq<Node>, order: seq<nat>, rank: seq<nat>, height: nat, j: nat, e: Entry, cut: nat)
    requires ValidList(nodes, order, rank, height)
    requires cut + 1 < |nodes| && j == order[cut + 1] && SortedRuns.SameSlot(nodes[j].entry, e)
    ensures var after := nodes[j := nodes[j].(entry := e)];
            ValidList(after, order, rank, height) && Listed(after, order) == Listed(nodes, order)[cut := e]
  {
    var after := nodes[j := nodes[j].(entry := e)];
    assert j != 0;
    assert forall i :: 0 <= i < |nodes| ==> after[i].height == nodes[i].height && after[i].next == nodes[i].next;
    forall i, l | 0 <= i < |after| && 0 <= l < after[i].height
      ensures Link(after, order, rank, i, l)
    {
      assert Link(nodes, order, rank, i, l);
    }
    forall p | 0 <= p < |nodes| - 1
      ensures Listed(after, order)[p] == Listed(nodes, order)[cut := e][p]
    {
      assert rank[order[p + 1]] == p + 1;
    }
    assert Listed(after, order) == Listed(nodes, order)[cut := e];
    SlotKeepsOrder(Listed(nodes, order), cut, e);
  }

  lemma SlotKeepsOrder(s: seq<Entry>, cut: nat, e: Entry)
    requires StrictlySorted(s) && cut < |s| && SortedRuns.SameSlot(s[cut], e)
    ensures StrictlySorted(s[cut := e])
  {
    var t := s[cut := e];
    forall i, j | 0 <= i < j < |t|
      ensures Before(t[i], t[j])
    {
      assert Before(s[i], s[j]);
    }
  }

  ghost function NewOrder(order: seq<nat>, cut: nat): seq<nat>
    requires cut < |order|
  {
    order[..cut + 1] + [|order|] + order[cut + 1..]
  }

  ghost function NewRank(rank: seq<nat>, cut: nat): (r: seq<nat>)
    ensures |r| == |rank| + 1
  {
    seq(|rank|, i requires 0 <= i < |rank| => if rank[i] > cut then rank[i] + 1 else rank[i]) + [cut + 1]
  }

  ghost predicate Spliceable(nodes: seq<Node>, update: seq<nat>) {
    && |update| == MAX_HEIGHT
    && (forall l :: 0 <= l < MAX_HEIGHT ==> update[l] < |nodes|)
    && (forall i :: 0 <= i < |nodes| ==> |nodes[i].next| == MAX_HEIGHT)
  }

  /** The nodes once the first `level` levels of the new node are linked in. */
  ghost function Spliced(nodes: seq<Node>, update: seq<nat>, e: Entry, h: nat, level: nat): (r: seq<Node>)
    requires level <= MAX_HEIGHT && Spliceable(nodes, update)
    ensures |r| == |nodes| + 1
  {
    seq(|nodes|, i requires 0 <= i < |nodes| => nodes[i].(next := SplicedLinks(nodes[i].next, update, i, |nodes|, level)))
    + [Node(e, h, seq(MAX_HEIGHT, l requires 0 <= l < MAX_HEIGHT => if l < level then nodes[update[l]].next[l] else None))]
  }

  ghost function SplicedLinks(next: seq<Option<nat>>, update: seq<nat>, i: nat, added: nat, level: nat): (r: seq<Option<nat>>)
    requires |update| == MAX_HEIGHT && |next| == MAX_HEIGHT
    ensures |r| == MAX_HEIGHT
    ensures forall l :: 0 <= l < MAX_HEIGHT ==> r[l] == if l < level && update[l] == i then Some(added) else next[l]
  {
    seq(MAX_HEIGHT, l requires 0 <= l < MAX_HEIGHT => if l < level && update[l] == i then Some(added) else next[l])
  }

  lemma SpliceStart(nodes: seq<Node>, update: seq<nat>, e: Entry, h: nat)
    requires Spliceable(nodes, update)
    ensures nodes + [Node(e, h, seq(MAX_HEIGHT, _ => None))] == Spliced(nodes, update, e, h, 0)
  {
    var s, t := Spliced(nodes, update, e, h, 0), nodes + [Node(e, h, seq(MAX_HEIGHT, _ => None))];
    forall i | 0 <= i < |s|
      ensures s[i] == t[i]
    {
      assert s[i].next == t[i].next;
    }
  }

  lemma SpliceStep(nodes: seq<Node>, update: seq<nat>, e: Entry, h: nat, level: nat)
    requires level < MAX_HEIGHT && Spliceable(nodes, update)
    ensures var s, n, prev := Spliced(nodes, update, e, h, level), |nodes|, update[level];
            var t := s[n := s[n].(next := s[n].next[level := s[prev].next[level]])];
            Spliced(nodes, update, e, h, level + 1) == t[prev := t[prev].(next := t[prev].next[level := Some(n)])]
  {
    var s, n, prev := Spliced(nodes, update, e, h, level), |nodes|, update[level];
    var t := s[n := s[n].(next := s[n].next[level := s[prev].next[level]])];
    var r := t[prev := t[prev].(next := t[prev].next[level := Some(n)])];
    var q := Spliced(nodes, update, e, h, level + 1);
    assert s[prev].next[level] == nodes[prev].next[level];
    forall i | 0 <= i < |q|
      ensures q[i] == r[i]
    {
      if i == n {
        assert q[n].next == r[n].next;
      } else {
        assert q[i].next == r[i].next;
      }
    }
  }

  lemma NewRanks(n: nat, order: seq<nat>, rank: seq<nat>, cut: nat)
    requires Ranked(n, order, rank) && cut < n
    ensures Ranked(n + 1, NewOrder(order, cut), NewRank(rank, cut))
    ensures forall p :: 0 <= p <= n ==> NewOrder(order, cut)[p] == if p <= cut then order[p] else if p == cut + 1 then n else order[p - 1]
  {
    var o, r := NewOrder(order, cut), NewRank(rank, cut);
    forall p | 0 <= p <= n
      ensures o[p] == if p <= cut then order[p] else if p == cut + 1 then n else order[p - 1]
    {
    }
  }

  /** What the splice did to one node. */
  lemma SplicedAt(nodes: seq<Node>, update: seq<nat>, e: Entry, h: nat, i: nat, l: nat)
    requires Spliceable(nodes, update) && h <= MAX_HEIGHT && l < MAX_HEIGHT
    requires i <= |nodes|
    ensures var after := Spliced(nodes, update, e, h, h);
            && |after[i].next| == MAX_HEIGHT
            && (i < |nodes| ==> after[i].height == nodes[i].height && after[i].entry == nodes[i].entry)
            && (i < |nodes| ==> after[i].next[l] == if l < h && update[l] == i then Some(|nodes|) else nodes[i].next[l])
            && (i == |nodes| ==> after[i].height == h && after[i].entry == e)
            && (i == |nodes| && l < h ==> after[i].next[l] == nodes[update[l]].next[l])
  {
  }

  /** A gap of the old list is a gap of the new one, if the new node stays out of it or is low. */
  lemma GapAfter(nodes: seq<Node>, order: seq<nat>, rank: seq<nat>, after: seq<Node>, cut: nat, h: nat, l: nat, from: nat, to: nat, newFrom: nat, newTo: nat)
    requires Ranked(|nodes|, order, rank) && cut < |nodes| && from < |nodes| && to <= |nodes|
    requires |after| == |nodes| + 1 && after[|nodes|].height == h && forall i :: 0 <= i < |nodes| ==> after[i].height == nodes[i].height
    requires Gap(nodes, order, l, from, to)
    requires newFrom == if from > cut then from + 1 else from
    requires newTo == if to > cut then to + 1 else to
    requires newFrom < cut + 1 < newTo ==> h <= l
    ensures Ranked(|after|, NewOrder(order, cut), NewRank(rank, cut)) && Gap(after, NewOrder(order, cut), l, newFrom, newTo)
  {
    NewRanks(|nodes|, order, rank, cut);
    var o := NewOrder(order, cut);
    forall p | 0 <= p < |o| && newFrom < p < newTo
      ensures after[o[p]].height <= l
    {
      if p <= cut {
        assert nodes[order[p]].height <= l;
      } else if p > cut + 1 {
        assert nodes[order[p - 1]].height <= l;
      }
    }
  }

  lemma GapAroundNew(nodes: seq<Node>, order: seq<nat>, rank: seq<nat>, after: seq<Node>, cut: nat, l: nat, from: nat, to: nat)
    requires Ranked(|nodes|, order, rank) && from <= cut < to <= |nodes|
    requires |after| == |nodes| + 1 && forall i :: 0 <= i < |nodes| ==> after[i].height == nodes[i].height
    requires Gap(nodes, order, l, from, to)
    ensures Ranked(|after|, NewOrder(order, cut), NewRank(rank, cut))
    ensures Gap(after, NewOrder(order, cut), l, from, cut + 1) && Gap(after, NewOrder(order, cut), l, cut + 1, to + 1)
  {
    NewRanks(|nodes|, order, rank, cut);
    var o := NewOrder(order, cut);
    forall p | 0 <= p < |o| && from < p < to + 1 && p != cut + 1
      ensures after[o[p]].height <= l
    {
      var q := if p <= cut then p else p - 1;
      assert nodes[order[q]].height <= l;
    }
  }

  /** Two nodes that reach a level cannot both be the last before the cut to do so. */
  lemma OnlyOneStop(nodes: seq<Node>, order: seq<nat>, rank: seq<nat>, height: nat, u: nat, i: nat, l: nat, cut: nat)
    requires Ranked(|nodes|, order, rank) && GoodNodes(nodes, height) && Linked(nodes, order, rank, height)
    requires cut < |nodes| && Stop(nodes, rank, u, l, cut)
    requires i < |nodes| && l < nodes[i].height && rank[i] <= cut
    requires nodes[i].next[l].None? || (nodes[i].next[l].value < |nodes| && rank[nodes[i].next[l].value] > cut)
    ensures i == u
  {
    assert Link(nodes, order, rank, u, l) && Link(nodes, order, rank, i, l);
    assert order[rank[u]] == u && order[rank[i]] == i;
    assert nodes[order[rank[u]]].height > l && nodes[order[rank[i]]].height > l;
  }

  ghost predicate Stops(nodes: seq<Node>, rank: seq<nat>, update: seq<nat>, cut: nat)
    requires |rank| == |nodes|
  {
    |update| == MAX_HEIGHT && forall l :: 0 <= l < MAX_HEIGHT ==> Stop(nodes, rank, update[l], l, cut)
  }

  /** The parts of a splice that the link argument needs. */
  ghost predicate SpliceOf(nodes: seq<Node>, rank: seq<nat>, after: seq<Node>, update: seq<nat>, h: nat, cut: nat)
    requires |rank| == |nodes|
  {
    && |after| == |nodes| + 1 && Stops(nodes, rank, update, cut)
    && (forall i :: 0 <= i < |after| ==> |after[i].next| == MAX_HEIGHT)
    && (forall i :: 0 <= i < |nodes| ==> after[i].height == nodes[i].height <= MAX_HEIGHT && |nodes[i].next| == MAX_HEIGHT)
    && after[|nodes|].height == h <= MAX_HEIGHT
  }

  lemma NewNodeLink(nodes: seq<Node>, order: seq<nat>, rank: seq<nat>, after: seq<Node>, update: seq<nat>, h: nat, cut: nat, i: nat, l: nat)
    requires Ranked(|nodes|, order, rank) && cut < |nodes| && SpliceOf(nodes, rank, after, update, h, cut)
    requires l < h && Link(nodes, order, rank, update[l], l)
    requires (i == |nodes| && after[i].next[l] == nodes[update[l]].next[l]) || (i == update[l] && after[i].next[l] == Some(|nodes|))
    ensures Ranked(|after|, NewOrder(order, cut), NewRank(rank, cut))
    ensures Link(after, NewOrder(order, cut), NewRank(rank, cut), i, l)
  {
    var n, u := |nodes|, update[l];
    NewRanks(n, order, rank, cut);
    assert Stop(nodes, rank, u, l, cut);
    var to := if nodes[u].next[l].None? then n else rank[nodes[u].next[l].value];
    GapAroundNew(nodes, order, rank, after, cut, l, rank[u], to);
  }

  lemma OldNodeLink(nodes: seq<Node>, order: seq<nat>, rank: seq<nat>, height: nat, after: seq<Node>, update: seq<nat>, h: nat, cut: nat, i: nat, l: nat)
    requires Ranked(|nodes|, order, rank) && GoodNodes(nodes, height) && Linked(nodes, order, rank, height)
    requires cut < |nodes| && SpliceOf(nodes, rank, after, update, h, cut)
    requires i < |nodes| && l < nodes[i].height && (l >= h || update[l] != i) && after[i].next[l] == nodes[i].next[l]
    ensures Ranked(|after|, NewOrder(order, cut), NewRank(rank, cut))
    ensures Link(after, NewOrder(order, cut), NewRank(rank, cut), i, l)
  {
    var n, r := |nodes|, NewRank(rank, cut);
    NewRanks(n, order, rank, cut);
    assert Link(nodes, order, rank, i, l);
    var to := if nodes[i].next[l].None? then n else rank[nodes[i].next[l].value];
    assert l < h && rank[i] <= cut ==> to <= cut by {
      if l < h && rank[i] <= cut && to > cut {
        assert Stop(nodes, rank, update[l], l, cut);
        OnlyOneStop(nodes, order, rank, height, update[l], i, l, cut);
      }
    }
    GapAfter(nodes, order, rank, after, cut, h, l, rank[i], to, r[i], if to > cut then to + 1 else to);
  }

  lemma SplicedLink(nodes: seq<Node>, order: seq<nat>, rank: seq<nat>, height: nat, update: seq<nat>, e: Entry, h: nat, cut: nat, i: nat, l: nat)
    requires Ranked(|nodes|, order, rank) && GoodNodes(nodes, height) && Linked(nodes, order, rank, height)
    requires 1 <= h <= height && cut < |nodes| && Stops(nodes, rank, update, cut)
    requires i <= |nodes| && l < if i == |nodes| then h else nodes[i].height
    ensures Ranked(|nodes| + 1, NewOrder(order, cut), NewRank(rank, cut))
    ensures |Spliced(nodes, update, e, h, h)[i].next| == MAX_HEIGHT
    ensures Link(Spliced(nodes, update, e, h, h), NewOrder(order, cut), NewRank(rank, cut), i, l)
  {
    var n := |nodes|;
    var after := Spliced(nodes, update, e, h, h);
    forall j | 0 <= j <= n
      ensures j < n ==> after[j].height == nodes[j].height
      ensures j == n ==> after[j].height == h
      ensures |after[j].next| == MAX_HEIGHT
    {
      SplicedAt(nodes, update, e, h, j, 0);
    }
    SplicedAt(nodes, update, e, h, i, l);
    hide Spliced, NewOrder, NewRank;
    assert SpliceOf(nodes, rank, after, update, h, cut);
    if i == n || (l < h && update[l] == i) {
      assert Stop(nodes, rank, update[l], l, cut);
      assert Link(nodes, order, rank, update[l], l);
      NewNodeLink(nodes, order, rank, after, update, h, cut, i, l);
    } else {
      OldNodeLink(nodes, order, rank, height, after, update, h, cut, i, l);
    }
  }

  lemma SplicedListing(nodes: seq<Node>, order: seq<nat>, rank: seq<nat>, update: seq<nat>, e: Entry, h: nat, cut: nat)
    requires Ranked(|nodes|, order, rank) && cut < |nodes| && h <= MAX_HEIGHT && Spliceable(nodes, update)
    ensures Ranked(|nodes| + 1, NewOrder(order, cut), NewRank(rank, cut))
    ensures var s := Listed(nodes, order); Listed(Spliced(nodes, update, e, h, h), NewOrder(order, cut)) == s[..cut] + [e] + s[cut..]
  {
    NewRanks(|nodes|, order, rank, cut);
    var s, after, o := Listed(nodes, order), Spliced(nodes, update, e, h, h), NewOrder(order, cut);
    var t := s[..cut] + [e] + s[cut..];
    forall p | 0 <= p < |nodes|
      ensures Listed(after, o)[p] == t[p]
    {
      SplicedAt(nodes, update, e, h, o[p + 1], 0);
    }
  }

  lemma SpliceKeeps(nodes: seq<Node>, order: seq<nat>, rank: seq<nat>, height: nat, update: seq<nat>, e: Entry, h: nat, cut: nat)
    requires Ranked(|nodes|, order, rank) && GoodNodes(nodes, height) && Linked(nodes, order, rank, height)
    requires 1 <= h <= height && cut < |nodes| && Stops(nodes, rank, update, cut)
    ensures Ranked(|nodes| + 1, NewOrder(order, cut), NewRank(rank, cut))
    ensures var after, s := Spliced(nodes, update, e, h, h), Listed(nodes, order);
            && GoodNodes(after, height)
            && Linked(after, NewOrder(order, cut), NewRank(rank, cut), height)
            && Listed(after, NewOrder(order, cut)) == s[..cut] + [e] + s[cut..]
  {
    var after := Spliced(nodes, update, e, h, h);
    NewRanks(|nodes|, order, rank, cut);
    forall i | 0 <= i < |after|
      ensures i == 0 ==> GoodNode(after[i], MAX_HEIGHT) && after[i].height == MAX_HEIGHT
      ensures i > 0 ==> GoodNode(after[i], height)
      ensures after[i].height == if i == |nodes| then h else nodes[i].height
    {
      SplicedAt(nodes, update, e, h, i, 0);
    }
    hide Spliced;
    forall i, l | 0 <= i < |after| && 0 <= l < after[i].height
      ensures Link(after, NewOrder(order, cut), NewRank(rank, cut), i, l)
    {
      SplicedLink(nodes, order, rank, height, update, e, h, cut, i, l);
    }
    SplicedListing(nodes, order, rank, update, e, h, cut);
  }

  /** Splicing the new node in is insertion into the list. */
  lemma SpliceInserts(nodes: seq<Node>, order: seq<nat>, rank: seq<nat>, height: nat, update: seq<nat>, e: Entry, h: nat, cut: nat)
    requires ValidList(nodes, order, rank, height)
    requires 1 <= h <= height && cut < |nodes| && Stops(nodes, rank, update, cut)
    requires var s := Listed(nodes, order); SortedRuns.Insert(s, e) == s[..cut] + [e] + s[cut..]
    ensures Spliceable(nodes, update)
    ensures var after := Spliced(nodes, update, e, h, h);
            ValidList(after, NewOrder(order, cut), NewRank(rank, cut), height)
            && Listed(after, NewOrder(order, cut)) == SortedRuns.Insert(Listed(nodes, order), e)
  {
    SpliceKeeps(nodes, order, rank, height, update, e, h, cut);
    SortedRuns.InsertSorted(Listed(nodes, order), e);
  }

  // --- Reading ---

  lemma NextAt(nodes: seq<Node>, order: seq<nat>, rank: seq<nat>, height: nat, i: nat, p: nat)
    requires ValidList(nodes, order, rank, height) && At(nodes, order, rank, height, Some(i), p)
    ensures At(nodes, order, rank, height, nodes[i].next[0], p + 1)
  {
    assert Link(nodes, order, rank, i, 0);
    assert forall q :: 0 <= q < |nodes| ==> nodes[order[q]].height >= 1;
    assert p + 2 < |nodes| ==> nodes[order[p + 2]].height >= 1;
  }

  lemma {:induction false} KeyCut(s: seq<Entry>, k: Bytes) returns (cut: nat)
    requires StrictlySorted(s)
    ensures Prefix(s, KeyBelow(k), cut)
  {
    cut := 0;
    if s != [] {
      SortedRuns.TailSorted(s);
      assert forall p :: 0 < p < |s| ==> s[p] == s[1..][p - 1] && s[1..][p - 1] in s[1..];
      if Lt(s[0].key, k) {
        var c := KeyCut(s[1..], k);
        cut := c + 1;
      } else {
        LtIsStrictTotalOrder();
        hide Lt;
      }
    }
  }

  lemma CutIsFirst(s: seq<Entry>, k: Bytes, cut: nat)
    requires StrictlySorted(s) && Prefix(s, KeyBelow(k), cut)
    ensures cut == |s| <==> AllBelow(s, k)
    ensures cut < |s| ==> IsFirstFrom(s, k, s[cut])
  {
    hide Lt, Before;
    assert forall p :: 0 <= p < |s| ==> (KeyBelow(k)(s[p]) <==> Lt(s[p].key, k));
    assert cut < |s| ==> s[cut] in s && !Lt(s[cut].key, k);
    forall e | e in s
      ensures cut == |s| ==> Lt(e.key, k)
      ensures cut < |s| ==> Lt(e.key, k) || e == s[cut] || Before(s[cut], e)
    {
      var p :| 0 <= p < |s| && s[p] == e;
      assert cut < p ==> Before(s[cut], s[p]);
    }
  }

  lemma {:induction false} LookupAtCut(s: seq<Entry>, k: Bytes, cut: nat)
    requires StrictlySorted(s) && Prefix(s, KeyBelow(k), cut)
    ensures SortedRuns.Lookup(s, k) == if cut < |s| && s[cut].key == k then Some(s[cut]) else None
  {
    LtIsStrictTotalOrder();
    var l := SortedRuns.LookupFirst(s, k);
    hide Lt, SortedRuns.Lookup;
    if l.Some? {
      var i :| 0 <= i < |s| && s[i] == l.value && forall j :: 0 <= j < i ==> s[j].key != k;
      assert i >= cut;
      assert cut < i ==> Before(s[cut], s[i]);
    }
  }

  lemma {:induction false} RangeIsSlice(s: seq<Entry>, start: Bytes, end: Bytes, a: nat, b: nat)
    requires StrictlySorted(s) && Prefix(s, KeyBelow(start), a) && a <= b <= |s|
    requires forall q :: a <= q < b ==> Lt(s[q].key, end)
    requires b < |s| ==> !Lt(s[b].key, end)
    ensures SortedRuns.InRange(s, start, end) == s[a..b]
  {
    LtIsStrictTotalOrder();
    hide Lt;
    forall q | b <= q < |s|
      ensures !Lt(s[q].key, end)
    {
      assert b < q ==> Before(s[b], s[q]);
    }
    FilterIsSlice(s, start, end, a, b);
  }

  lemma {:induction false} FilterIsSlice(s: seq<Entry>, start: Bytes, end: Bytes, a: nat, b: nat)
    requires a <= b <= |s|
    requires forall q :: 0 <= q < |s| ==> (a <= q < b <==> Le(start, s[q].key) && Lt(s[q].key, end))
    ensures SortedRuns.InRange(s, start, end) == s[a..b]
  {
    if s != [] {
      assert forall q :: 0 < q < |s| ==> s[q] == s[1..][q - 1];
      hide Lt;
      if a > 0 {
        FilterIsSlice(s[1..], start, end, a - 1, b - 1);
      } else if b > 0 {
        FilterIsSlice(s[1..], start, end, 0, b - 1);
        assert s[0..b] == [s[0]] + s[1..][0..b - 1];
      } else {
        FilterIsSlice(s[1..], start, end, 0, 0);
      }
    }
  }

  /** The entries of one record. */
  function OfRecord(s: seq<Entry>, record: Bytes): seq<Entry> {
    if s == [] then []
    else if RecordId(s[0].key) == record then [s[0]] + OfRecord(s[1..], record)
    else OfRecord(s[1..], record)
  }

  lemma {:induction false} OfRecordIsSlice(s: seq<Entry>, record: Bytes, a: nat, b: nat)
    requires a <= b <= |s|
    requires forall q :: 0 <= q < |s| ==> (a <= q < b <==> RecordId(s[q].key) == record)
    ensures OfRecord(s, record) == s[a..b]
  {
    hide RecordId;
    if s != [] {
      assert forall q :: 0 <= q < |s[1..]| ==> s[1..][q] == s[q + 1];
      if a > 0 {
        OfRecordIsSlice(s[1..], record, a - 1, b - 1);
      } else if b > 0 {
        OfRecordIsSlice(s[1..], record, 0, b - 1);
        assert s[0..b] == [s[0]] + s[1..][0..b - 1];
      } else {
        OfRecordIsSlice(s[1..], record, 0, 0);
      }
    }
  }

  lemma {:induction false} RecordIsSlice(s: seq<Entry>, record: Bytes, a: nat, b: nat)
    requires StrictlySorted(s) && ValidRecordId(record) && Prefix(s, KeyBelow(Join(record, [])), a) && a <= b <= |s|
    requires forall e :: e in s ==> HasSeparator(e.key)
    requires forall q :: a <= q < b ==> RecordId(s[q].key) == record
    requires b < |s| ==> RecordId(s[b].key) != record
    ensures OfRecord(s, record) == s[a..b]
  {
    forall q | 0 <= q < |s| && RecordId(s[q].key) == record
      ensures a <= q < b
    {
      assert s[q] in s;
      SplitJoin(s[q].key);
      OrderWithinRecord(record, ItemKey(s[q].key), []);
      if q > b {
        RecordStops(s, record, b, q);
      }
    }
    OfRecordIsSlice(s, record, a, b);
  }

  /** Once the walk has left the record it never meets it again. */
  lemma RecordStops(s: seq<Entry>, record: Bytes, b: nat, q: nat)
    requires StrictlySorted(s) && ValidRecordId(record) && b < q < |s|
    requires !Lt(s[b].key, Join(record, []))
    requires HasSeparator(s[b].key) && HasSeparator(s[q].key) && RecordId(s[b].key) != record
    ensures RecordId(s[q].key) != record
  {
    if RecordId(s[q].key) == record {
      SplitJoin(s[q].key);
      assert Before(s[b], s[q]);
      LtTotal(s[b].key, Join(record, []));
      RecordsAreContiguous(record, [], s[b].key, ItemKey(s[q].key));
    }
  }
}
