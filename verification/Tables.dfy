/** An SSTable as its decoded blocks: how the writer cuts them and how a handle looks them up
    (crates/flushdb-engine/src/sstable/writer.rs, sstable_handle.rs and sstable/index_block.rs). */
module Tables {
  import opened Wrappers
  import opened ByteStrings
  import opened CompositeKeys
  import opened Entries
  import BlockCodec
  import BloomFilters

  /** Writer settings. The file size depends on the compressor and is left open. */
  datatype SstConfig = SstConfig(blockTarget: nat, bitsPerKey: nat, hash: BloomFilters.Hash, fileSize: seq<seq<Entry>> -> nat)

  /** A table of the manifest together with the immutable file it names. */
  datatype Table = Table(id: nat, size: nat, minKey: Bytes, maxKey: Bytes, createdAt: nat, blocks: seq<seq<Entry>>, filter: BloomFilters.Filter) {
    function Contents(): seq<Entry> {
      Flatten(blocks)
    }

    predicate ContainsKey(k: Bytes) {
      Le(minKey, k) && Le(k, maxKey)
    }

    predicate OverlapsRange(start: Bytes, end: Bytes) {
      !(Lt(maxKey, start) || Lt(end, minKey))
    }
  }

  /** A block is closed as soon as its encoding reaches the target. */
  function SplitBlocks(current: seq<Entry>, es: seq<Entry>, target: nat): seq<seq<Entry>>
    decreases |es|
  {
    if es == [] then
      if current == [] then [] else [current]
    else
      var grown := current + [es[0]];
      if |BlockCodec.EncodeAll(grown, None)| >= target then [grown] + SplitBlocks([], es[1..], target)
      else SplitBlocks(grown, es[1..], target)
  }

  function RecordsOf(es: seq<Entry>): set<Bytes> {
    set e | e in es :: RecordId(e.key)
  }

  function WriteTable(cfg: SstConfig, id: nat, es: seq<Entry>, now: nat): Table
    requires es != []
  {
    var blocks := SplitBlocks([], es, cfg.blockTarget);
    Table(id, cfg.fileSize(blocks), es[0].key, es[|es| - 1].key, now, blocks, BloomFilters.Build(cfg.hash, RecordsOf(es), cfg.bitsPerKey))
  }

  lemma {:induction false} SplitBlocksCuts(current: seq<Entry>, es: seq<Entry>, target: nat)
    ensures Flatten(SplitBlocks(current, es, target)) == current + es
    ensures forall b :: b in SplitBlocks(current, es, target) ==> b != []
    decreases |es|
  {
    hide BlockCodec.EncodeAll;
    if es != [] {
      var grown := current + [es[0]];
      assert grown + es[1..] == current + es;
      if |BlockCodec.EncodeAll(grown, None)| >= target {
        SplitBlocksCuts([], es[1..], target);
        assert SplitBlocks(current, es, target) == [grown] + SplitBlocks([], es[1..], target);
      } else {
        SplitBlocksCuts(grown, es[1..], target);
      }
    }
  }

  /** Where the writer cuts: every block but the last has reached the target, and none had reached it
      one entry earlier. */
  ghost predicate CutAtTarget(blocks: seq<seq<Entry>>, target: nat) {
    forall i :: 0 <= i < |blocks| ==>
      && blocks[i] != []
      && (|blocks[i]| == 1 || |BlockCodec.EncodeAll(blocks[i][..|blocks[i]| - 1], None)| < target)
      && (i < |blocks| - 1 ==> |BlockCodec.EncodeAll(blocks[i], None)| >= target)
  }

  lemma {:induction false} BlocksReachTarget(current: seq<Entry>, es: seq<Entry>, target: nat)
    requires current == [] || |BlockCodec.EncodeAll(current, None)| < target
    requires |current| <= 1 || |BlockCodec.EncodeAll(current[..|current| - 1], None)| < target
    ensures CutAtTarget(SplitBlocks(current, es, target), target)
    decreases |es|
  {
    hide BlockCodec.EncodeAll;
    if es != [] {
      var grown := current + [es[0]];
      assert grown[..|grown| - 1] == current;
      if |BlockCodec.EncodeAll(grown, None)| >= target {
        BlocksReachTarget([], es[1..], target);
      } else {
        BlocksReachTarget(grown, es[1..], target);
      }
    }
  }

  /** What every table written from sorted entries satisfies. */
  ghost predicate WellFormed(cfg: SstConfig, t: Table) {
    && t.blocks != []
    && (forall i :: 0 <= i < |t.blocks| ==> t.blocks[i] != [])
    && t.Contents() != []
    && StrictlySorted(t.Contents())
    && t.minKey == t.Contents()[0].key
    && t.maxKey == t.Contents()[|t.Contents()| - 1].key
    && t.filter == BloomFilters.Build(cfg.hash, RecordsOf(t.Contents()), cfg.bitsPerKey)
  }

  lemma WrittenTable(cfg: SstConfig, id: nat, es: seq<Entry>, now: nat)
    requires es != [] && StrictlySorted(es)
    ensures WriteTable(cfg, id, es, now).Contents() == es
    ensures WellFormed(cfg, WriteTable(cfg, id, es, now))
    ensures CutAtTarget(WriteTable(cfg, id, es, now).blocks, cfg.blockTarget)
    ensures var t := WriteTable(cfg, id, es, now); t.id == id && t.createdAt == now && t.size == cfg.fileSize(t.blocks)
  {
    BlocksReachTarget([], es, cfg.blockTarget);
    SplitBlocksCuts([], es, cfg.blockTarget);
    assert [] + es == es;
    var blocks := SplitBlocks([], es, cfg.blockTarget);
    assert forall i :: 0 <= i < |blocks| ==> blocks[i] in blocks;
  }

  // --- Looking up ---

  /** Number of leading blocks whose first key is at most `k`: the partition point of the index. */
  function BlocksUpTo(blocks: seq<seq<Entry>>, k: Bytes): (n: nat)
    ensures n <= |blocks|
    ensures forall i :: 0 <= i < n ==> blocks[i] != [] && Le(blocks[i][0].key, k)
    ensures n < |blocks| ==> blocks[n] == [] || !Le(blocks[n][0].key, k)
  {
    if blocks == [] || blocks[0] == [] || !Le(blocks[0][0].key, k) then 0
    else
      assert forall i :: 0 < i < |blocks| ==> blocks[i] == blocks[1..][i - 1];
      1 + BlocksUpTo(blocks[1..], k)
  }

  /** `SSTableHandle::get`: Bloom filter, sparse index, then a scan of one block. */
  function Get(cfg: SstConfig, t: Table, k: Bytes): Option<Entry> {
    if !BloomFilters.MaybeContains(cfg.hash, t.filter, RecordId(k)) then None
    else
      var n := BlocksUpTo(t.blocks, k);
      if n == 0 then None else Newest(t.blocks[n - 1], k)
  }

  /** Versions of `k` lie on both sides of a block boundary. */
  ghost predicate Splits(t: Table, k: Bytes) {
    exists i :: 0 < i < |t.blocks| && EndsWith(t.blocks[i - 1], k) && StartsWith(t.blocks[i], k)
  }

  ghost predicate EndsWith(b: seq<Entry>, k: Bytes) {
    b != [] && b[|b| - 1].key == k
  }

  ghost predicate StartsWith(b: seq<Entry>, k: Bytes) {
    b != [] && b[0].key == k
  }

  /** Entries of an earlier block come before entries of a later one. */
  lemma {:induction false} BlocksInOrder(blocks: seq<seq<Entry>>, i: nat, j: nat, e: Entry, f: Entry)
    requires StrictlySorted(Flatten(blocks))
    requires i < j < |blocks| && e in blocks[i] && f in blocks[j]
    ensures Before(e, f)
  {
    var rest := Flatten(blocks[1..]);
    if i == 0 {
      FlattenMember(blocks[1..], f);
      assert f in blocks[1..][j - 1];
      var p :| 0 <= p < |blocks[0]| && blocks[0][p] == e;
      var q :| 0 <= q < |rest| && rest[q] == f;
      assert Flatten(blocks)[p] == e && Flatten(blocks)[|blocks[0]| + q] == f;
    } else {
      TailSorted(blocks[0], rest);
      BlocksInOrder(blocks[1..], i - 1, j - 1, e, f);
    }
  }

  lemma TailSorted(a: seq<Entry>, b: seq<Entry>)
    requires StrictlySorted(a + b)
    ensures StrictlySorted(a) && StrictlySorted(b)
  {
    assert forall i :: 0 <= i < |a| ==> (a + b)[i] == a[i];
    assert forall i :: 0 <= i < |b| ==> (a + b)[|a| + i] == b[i];
  }

  lemma {:induction false} BlockSorted(blocks: seq<seq<Entry>>, i: nat)
    requires StrictlySorted(Flatten(blocks)) && i < |blocks|
    ensures StrictlySorted(blocks[i])
  {
    TailSorted(blocks[0], Flatten(blocks[1..]));
    if i > 0 {
      BlockSorted(blocks[1..], i - 1);
    }
  }

  lemma {:induction false} LaterBlocksAreAbove(cfg: SstConfig, t: Table, k: Bytes, j: nat, e: Entry)
    requires WellFormed(cfg, t) && j < |t.blocks| && e in t.blocks[j]
    ensures j >= BlocksUpTo(t.blocks, k) ==> Lt(k, e.key)
  {
    LtIsStrictTotalOrder();
    var n := BlocksUpTo(t.blocks, k);
    if n < |t.blocks| {
      var first := t.blocks[n][0];
      assert Lt(k, first.key);
      if n < j {
        BlocksInOrder(t.blocks, n, j, first, e);
      } else if n == j {
        BlockSorted(t.blocks, j);
        var p :| 0 <= p < |t.blocks[j]| && t.blocks[j][p] == e;
      }
    }
  }

  /** All the versions of `k` that the chosen block misses sit in earlier blocks, and then the
      chosen block starts with `k` right after a block that ends with `k`. */
  lemma {:induction false} OutsideChosenBlock(cfg: SstConfig, t: Table, k: Bytes, j: nat, e: Entry)
    requires WellFormed(cfg, t) && j < |t.blocks| && e in t.blocks[j] && e.key == k
    requires j != BlocksUpTo(t.blocks, k) - 1
    ensures j < BlocksUpTo(t.blocks, k) - 1
    ensures Splits(t, k)
    ensures StartsWith(t.blocks[BlocksUpTo(t.blocks, k) - 1], k)
  {
    LtIsStrictTotalOrder();
    var n := BlocksUpTo(t.blocks, k);
    LaterBlocksAreAbove(cfg, t, k, j, e);
    var chosen := t.blocks[n - 1];
    BlocksInOrder(t.blocks, j, n - 1, e, chosen[0]);
    assert chosen[0].key == k;
    var left := t.blocks[n - 2];
    var end := left[|left| - 1];
    assert end in left;
    BlocksInOrder(t.blocks, n - 2, n - 1, end, chosen[0]);
    if j < n - 2 {
      BlocksInOrder(t.blocks, j, n - 2, e, end);
    } else {
      BlockSorted(t.blocks, j);
    }
    assert end.key == k;
  }

  /** A handle's `get` answers with the newest version of the key in the table exactly when the
      key's versions do not straddle a block boundary. */
  lemma {:induction false} GetIsNewestIffNotSplit(cfg: SstConfig, t: Table, k: Bytes)
    requires WellFormed(cfg, t)
    ensures Get(cfg, t, k) == Newest(t.Contents(), k) <==> !Splits(t, k)
  {
    var best := Newest(t.Contents(), k);
    var n := BlocksUpTo(t.blocks, k);
    if best.Some? {
      FlattenMember(t.blocks, best.value);
      var j :| 0 <= j < |t.blocks| && best.value in t.blocks[j];
      BloomFilters.NoFalseNegatives(cfg.hash, RecordsOf(t.Contents()), cfg.bitsPerKey, RecordId(k));
      if j + 1 != n {
        OutsideChosenBlock(cfg, t, k, j, best.value);
        MissesBest(cfg, t, k, j);
      } else {
        FindsBest(cfg, t, k);
      }
    } else {
      forall j, e | 0 <= j < |t.blocks| && e in t.blocks[j]
        ensures e.key != k
      {
        FlattenMember(t.blocks, e);
      }
    }
  }

  lemma FindsBest(cfg: SstConfig, t: Table, k: Bytes)
    requires WellFormed(cfg, t)
    requires Newest(t.Contents(), k).Some?
    requires BlocksUpTo(t.blocks, k) > 0 && Newest(t.Contents(), k).value in t.blocks[BlocksUpTo(t.blocks, k) - 1]
    ensures Newest(t.blocks[BlocksUpTo(t.blocks, k) - 1], k) == Newest(t.Contents(), k)
    ensures !Splits(t, k)
  {
    hide Lt, Newest, BlocksUpTo;
    LtIsStrictTotalOrder();
    var n := BlocksUpTo(t.blocks, k);
    var best := Newest(t.Contents(), k).value;
    var chosen := t.blocks[n - 1];
    forall e | e in chosen
      ensures e in t.Contents()
    {
      FlattenMember(t.blocks, e);
    }
    SameSeqnoSameEntry(t, best, Newest(chosen, k).value);
    forall i | 0 < i < |t.blocks| && StartsWith(t.blocks[i], k)
      ensures !EndsWith(t.blocks[i - 1], k)
    {
      var earlier := t.blocks[i - 1][|t.blocks[i - 1]| - 1];
      LaterBlocksAreAbove(cfg, t, k, i, t.blocks[i][0]);
      FlattenMember(t.blocks, earlier);
      assert earlier in t.blocks[i - 1];
      BlocksInOrder(t.blocks, i - 1, n - 1, earlier, best);
    }
  }

  lemma SameSeqnoSameEntry(t: Table, e: Entry, f: Entry)
    requires StrictlySorted(t.Contents()) && e in t.Contents() && f in t.Contents()
    requires e.key == f.key && e.seqno == f.seqno
    ensures e == f
  {
    LtIsStrictTotalOrder();
    var p :| 0 <= p < |t.Contents()| && t.Contents()[p] == e;
    var q :| 0 <= q < |t.Contents()| && t.Contents()[q] == f;
    assert p == q;
  }

  lemma MissesBest(cfg: SstConfig, t: Table, k: Bytes, j: nat)
    requires WellFormed(cfg, t)
    requires Newest(t.Contents(), k).Some?
    requires j < BlocksUpTo(t.blocks, k) - 1 && Newest(t.Contents(), k).value in t.blocks[j]
    ensures Get(cfg, t, k) != Newest(t.Contents(), k)
  {
    LtIsStrictTotalOrder();
    var n := BlocksUpTo(t.blocks, k);
    var best := Newest(t.Contents(), k).value;
    assert best !in t.blocks[n - 1] by {
      if best in t.blocks[n - 1] {
        BlocksInOrder(t.blocks, j, n - 1, best, best);
      }
    }
  }

  /** Tables whose keys are all distinct, as compaction writes them, never split a key. */
  lemma DistinctKeysNeverSplit(cfg: SstConfig, t: Table, k: Bytes)
    requires WellFormed(cfg, t) && KeysIncreasing(t.Contents())
    ensures !Splits(t, k)
  {
    forall i | 0 < i < |t.blocks| && StartsWith(t.blocks[i], k)
      ensures !EndsWith(t.blocks[i - 1], k)
    {
      LtIsStrictTotalOrder();
      var left := t.blocks[i - 1];
      assert left[|left| - 1] in left;
      KeysAcrossBlocks(t.blocks, i - 1, i, left[|left| - 1], t.blocks[i][0]);
    }
  }

  lemma {:induction false} KeysAcrossBlocks(blocks: seq<seq<Entry>>, i: nat, j: nat, e: Entry, f: Entry)
    requires KeysIncreasing(Flatten(blocks))
    requires i < j < |blocks| && e in blocks[i] && f in blocks[j]
    ensures Lt(e.key, f.key)
  {
    var rest := Flatten(blocks[1..]);
    if i == 0 {
      FlattenMember(blocks[1..], f);
      assert f in blocks[1..][j - 1];
      var p :| 0 <= p < |blocks[0]| && blocks[0][p] == e;
      var q :| 0 <= q < |rest| && rest[q] == f;
      assert Flatten(blocks)[p] == e && Flatten(blocks)[|blocks[0]| + q] == f;
    } else {
      assert forall q :: 0 <= q < |rest| ==> Flatten(blocks)[|blocks[0]| + q] == rest[q];
      KeysAcrossBlocks(blocks[1..], i - 1, j - 1, e, f);
    }
  }
}
