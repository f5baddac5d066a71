/** Pages and flushed range deletes: where pagination is invisible without a word about the store, and a
    run in which a page forgets a range delete that the page before it met. */
module PagedRangeDeletes {
  import opened Wrappers
  import opened ByteStrings
  import opened CompositeKeys
  import opened Entries
  import opened Tables
  import opened Manifests
  import opened RangeTombstones
  import opened Engine
  import opened EngineInvariant
  import opened EngineTheorems
  import opened RangeReads
  import opened RangeReadTheorems
  import opened PageLists
  import opened Pagination
  import opened RangeReadMeaning
  import SortedRuns

  // --- Items below the tombstone prefix ---

  predicate Plain(item: Bytes) {
    item == [] || item[0] != RANGE_TOMBSTONE_PREFIX
  }

  /** Puts and point deletes address items that do not start with the tombstone prefix byte. */
  predicate PlainOps(ops: seq<Op>) {
    forall i :: 0 <= i < |ops| && (ops[i].PutOp? || ops[i].DeleteOp?) ==> Plain(ops[i].item)
  }

  /** Values lie below the prefix byte of their record, range deletes above it. */
  ghost predicate KindByKey(e: Entry) {
    && SEPARATOR !in RecordId(e.key) && e.key == Join(RecordId(e.key), ItemKey(e.key))
    && (e.kind == RangeDelete <==> !Plain(ItemKey(e.key)))
  }

  lemma JoinedKind(record: Bytes, item: Bytes, e: Entry)
    requires SEPARATOR !in record && e.key == Join(record, item) && (e.kind == RangeDelete <==> !Plain(item))
    ensures KindByKey(e)
  {
    JoinSplit(record, item);
  }

  lemma {:induction false} HistoryIsPlain(cfg: EngineConfig, ops: seq<Op>)
    requires PlainOps(ops)
    ensures forall e :: e in History(cfg, ops) ==> KindByKey(e)
  {
    if ops != [] {
      hide KindByKey, Run;
      var before, op := ops[..|ops| - 1], ops[|ops| - 1];
      HistoryIsPlain(cfg, before);
      forall e | e in Logged(cfg, Run(cfg, before), op)
        ensures KindByKey(e)
      {
        hide Join;
        if op.DeleteRangeOp? {
          JoinedKind(op.record, [RANGE_TOMBSTONE_PREFIX] + op.start, e);
        } else {
          JoinedKind(op.record, op.item, e);
        }
      }
    }
  }

  lemma PlainBelow(e: Entry, r: Entry)
    requires KindByKey(e) && KindByKey(r) && RecordId(e.key) == RecordId(r.key) && e.kind != RangeDelete && r.kind == RangeDelete
    ensures Lt(e.key, r.key)
  {
    hide RecordId, ItemKey;
    OrderWithinRecord(RecordId(e.key), ItemKey(e.key), ItemKey(r.key));
  }

  /** Before a value of the record, a list in key order holds no range delete of the record. */
  lemma {:induction false} NothingMetBefore(es: seq<Entry>, i: nat, record: Bytes, n: nat)
    requires KeysIncreasing(es) && n <= i < |es| && IsValue(es[i], record) && forall e :: e in es ==> KindByKey(e)
    ensures MetIn(es[..n], record) == []
    decreases n
  {
    LtIsStrictTotalOrder();
    hide Lt, RecordId, ItemKey;
    if n > 0 {
      NothingMetBefore(es, i, record, n - 1);
      MetOneMore(es, n - 1, record);
      var r := es[n - 1];
      assert r in es && es[i] in es && Lt(r.key, es[i].key);
      if r.kind == RangeDelete && RecordId(r.key) == record {
        PlainBelow(es[i], r);
        assert false;
      }
    }
  }

  lemma NoneForgottenWhenPlain(es: seq<Entry>, record: Bytes, ts: seq<RangeTombstone>)
    requires KeysIncreasing(es) && forall e :: e in es ==> KindByKey(e)
    ensures NoneForgotten(es, record, ts)
  {
    hide KeysIncreasing, Idle, MetIn, KindByKey, RecordId, ItemKey;
    forall i | 0 <= i < |es| && Shows(es[i], record, ts + ([] + MetIn(es[..i], record)))
      ensures Idle(es[i + 1..], record, ts, [] + MetIn(es[..i + 1], record))
    {
      NothingMetBefore(es, i, record, i);
      MetOneMore(es, i, record);
      assert [] + MetIn(es[..i + 1], record) == [];
      AlwaysIdle(es[i + 1..], record, ts);
    }
  }

  /** When no item starts with the tombstone prefix byte, pagination is invisible for every range of
      every run, range deletes and ends beyond the prefix included. */
  lemma {:induction false} PlainItemsPageInvisibly(cfg: EngineConfig, ops: seq<Op>, record: Bytes, from: Bytes, to: Bytes)
    requires PlainOps(ops)
    ensures var s := Run(cfg, ops);
            Resumes(s, record, from, to) && PagesAlwaysWhole(s, record, from, to)
  {
    hide Run, History, Inv, PlainOps, KindByKey, Merged, NoneForgotten, TombstonesOf, KeysIncreasing, RecordId, ItemKey, Resumes, PagesAlwaysWhole;
    var s, log := Run(cfg, ops), History(cfg, ops);
    RunKeeps(cfg, ops);
    HistoryIsPlain(cfg, ops);
    MergedKeysIncreasing(cfg, s, log, from, to);
    MergedIsLogged(cfg, s, log, from, to);
    NoneForgottenWhenPlain(Merged(s, from, to), record, TombstonesOf(s.Memtables()));
    forall e | e in Merged(s, from, to) && IsValue(e, record)
      ensures CleanAt(s, e.key, to)
    {
      MergedIsLogged(cfg, s, log, e.key, to);
      forall x | x in Merged(s, e.key, to) && x.key == e.key
        ensures x.kind != RangeDelete
      {
        SameKeySameKind(e, x);
      }
    }
    EvenPaginationIff(cfg, s, log, record, from, to, Limit(0, None));
    PaginationInvisibleIff(cfg, s, log, record, from, to);
  }

  lemma SameKeySameKind(e: Entry, x: Entry)
    requires KindByKey(e) && KindByKey(x) && e.key == x.key
    ensures e.kind == RangeDelete <==> x.kind == RangeDelete
  {
  }

  lemma MergedIsLogged(cfg: EngineConfig, s: State, log: seq<Entry>, from: Bytes, to: Bytes)
    requires Inv(cfg, s, log)
    ensures forall e :: e in Merged(s, from, to) ==> e in log && Offered(s, e)
  {
    hide Inv, Merged, Lt, All, KeysIncreasing, Offered;
    RangeReadTheorems.MergedIsNewest(cfg, s, log, from, to);
    forall e | e in Merged(s, from, to)
      ensures e in log && Offered(s, e)
    {
      AllIsOffered(cfg, s, log, from, to, e);
      OfferedIsLogged(cfg, s, log, e);
    }
  }

  // --- A run whose pages forget a range delete ---

  /** An item, a range delete that covers it, and a later item between the two in key order. */
  function Interleaved(v: Bytes, w: Bytes): (ops: seq<Op>)
    ensures |ops| == 5
  {
    var env := Env(false, false, 0);
    [PutOp([1], [255, 255, 9], v, [], NO_TOKEN, env), DeleteRangeOp([1], [255, 3], [], env),
     PutOp([1], [255, 255, 5], w, [], NO_TOKEN, env), FreezeOp, FlushOp(0)]
  }

  function KeyOf(last: byte): Bytes {
    [1, 0, 255, 255, last]
  }

  function Covered(v: Bytes): Entry {
    Entry(KeyOf(9), v, [], Put, 1)
  }

  function Covering(): Entry {
    Entry(KeyOf(3), [], [], RangeDelete, 2)
  }

  function Later(w: Bytes): Entry {
    Entry(KeyOf(5), w, [], Put, 3)
  }

  const FROM: Bytes := [1, 0]
  const TO: Bytes := [1, 0, 255, 255, 255]

  lemma OrderOfKeys(a: byte, b: byte)
    ensures Lt(KeyOf(a), KeyOf(b)) <==> a < b
    ensures Lt(FROM, KeyOf(a)) && !Lt(KeyOf(a), FROM)
    ensures RecordId(KeyOf(a)) == [1] && ItemKey(KeyOf(a)) == [255, 255, a]
  {
    LtIsStrictTotalOrder();
    assert KeyOf(a) == [1, 0, 255, 255] + [a] && KeyOf(b) == [1, 0, 255, 255] + [b];
    LtCommonPrefix([1, 0, 255, 255], [a], [b]);
    assert FROM == FROM + [] && KeyOf(a) == FROM + [255, 255, a];
    LtCommonPrefix(FROM, [], [255, 255, a]);
    assert Join([1], [255, 255, a]) == KeyOf(a);
    JoinSplit([1], [255, 255, a]);
  }

  /** A write that meets an engine with empty levels and is not due for a freeze. */
  lemma PlainWrite(cfg: EngineConfig, s: State, op: Op, e: Entry)
    requires cfg.compaction.l0Stop > 0 && s.manifest.levels == [[], [], [], []]
    requires (op.PutOp? || op.DeleteOp? || op.DeleteRangeOp?) && op.env == Env(false, false, 0)
    requires Request(s, op) == Ok((e, NO_TOKEN))
    ensures Logged(cfg, s, op) == [e] && Step(cfg, s, op).0 == Accept(s, e, NO_TOKEN)
  {
    hide Request, Accept;
  }

  lemma Requests(s: State, v: Bytes, w: Bytes)
    ensures s.nextSeqno == 1 ==> Request(s, Interleaved(v, w)[0]) == Ok((Covered(v), NO_TOKEN))
    ensures s.nextSeqno == 2 ==> Request(s, Interleaved(v, w)[1]) == Ok((Covering(), NO_TOKEN))
    ensures s.nextSeqno == 3 ==> Request(s, Interleaved(v, w)[2]) == Ok((Later(w), NO_TOKEN))
  {
    assert Join([1], [255, 255, 9]) == KeyOf(9) && Join([1], [255, 255, 5]) == KeyOf(5);
    assert [RANGE_TOMBSTONE_PREFIX] + [255, 3] == [255, 255, 3] && Join([1], [255, 255, 3]) == KeyOf(3);
  }

  lemma Inserts(v: Bytes, w: Bytes)
    ensures SortedRuns.Insert([], Covered(v)) == [Covered(v)]
    ensures SortedRuns.Insert([Covered(v)], Covering()) == [Covering(), Covered(v)]
    ensures SortedRuns.Insert([Covering(), Covered(v)], Later(w)) == [Covering(), Later(w), Covered(v)]
  {
    OrderOfKeys(3, 9);
    OrderOfKeys(9, 3);
    OrderOfKeys(3, 5);
    OrderOfKeys(5, 9);
    OrderOfKeys(9, 5);
    hide Lt;
    assert [Covering(), Covered(v)][1..] == [Covered(v)];
    assert SortedRuns.Insert([Covered(v)], Later(w)) == [Later(w)] + [Covered(v)];
  }

  ghost predicate Memory(s: State, entries: seq<Entry>, next: nat) {
    && s.active.entries == entries && s.active.nextSeqno == s.nextSeqno == next && s.frozen == []
    && s.levels == s.manifest.levels == [[], [], [], []] && s.manifest.lastFlushed == 0
  }

  lemma Accepted(s: State, entries: seq<Entry>, e: Entry)
    requires Memory(s, entries, e.seqno)
    ensures Memory(Accept(s, e, NO_TOKEN), SortedRuns.Insert(entries, e), e.seqno + 1)
  {
  }

  lemma {:induction false} AllBuffered(cfg: EngineConfig, v: Bytes, w: Bytes)
    requires cfg.compaction.l0Stop > 0
    ensures Memory(Run(cfg, Interleaved(v, w)[..3]), [Covering(), Later(w), Covered(v)], 4)
    ensures History(cfg, Interleaved(v, w)[..3]) == [Covered(v), Covering(), Later(w)]
  {
    hide Run, History, Step, Logged, Request, Accept, SortedRuns.Insert;
    var ops := Interleaved(v, w);
    assert ops[..1] == [] + [ops[0]] && ops[..2] == ops[..1] + [ops[1]] && ops[..3] == ops[..2] + [ops[2]];
    RunSnoc(cfg, [], ops[0]);
    RunSnoc(cfg, ops[..1], ops[1]);
    RunSnoc(cfg, ops[..2], ops[2]);
    EmptyRun(cfg);
    Inserts(v, w);
    var s0, s1, s2 := Run(cfg, []), Run(cfg, ops[..1]), Run(cfg, ops[..2]);
    Requests(s0, v, w);
    PlainWrite(cfg, s0, ops[0], Covered(v));
    Accepted(s0, [], Covered(v));
    Requests(s1, v, w);
    PlainWrite(cfg, s1, ops[1], Covering());
    Accepted(s1, [Covered(v)], Covering());
    Requests(s2, v, w);
    PlainWrite(cfg, s2, ops[2], Later(w));
    Accepted(s2, [Covering(), Covered(v)], Later(w));
  }

  lemma EmptyRun(cfg: EngineConfig)
    ensures Memory(Run(cfg, []), [], 1) && History(cfg, []) == []
  {
  }

  lemma {:induction false} AllFlushed(cfg: EngineConfig, v: Bytes, w: Bytes) returns (t: Table)
    requires cfg.compaction.l0Stop > 0 && cfg.compaction.l0Trigger > 0 && cfg.maxFrozen > 0
    ensures var s := Run(cfg, Interleaved(v, w));
            s.active == EmptyMemtable(s.active.nextSeqno) && s.frozen == [] && s.levels == [[t], [], [], []]
    ensures t.Contents() == [Covering(), Later(w), Covered(v)]
    ensures History(cfg, Interleaved(v, w)) == [Covered(v), Covering(), Later(w)]
  {
    hide Run, History, Flatten, Interleaved;
    var ops := Interleaved(v, w);
    AllBuffered(cfg, v, w);
    LastOps(v, w);
    RunSnoc(cfg, ops[..3], FreezeOp);
    RunSnoc(cfg, ops[..4], FlushOp(0));
    var s3, s4 := Run(cfg, ops[..3]), Run(cfg, ops[..4]);
    FreezeFirst(cfg, s3);
    t := FlushFirst(cfg, s4);
    InOrder(v, w);
    StrictlyByKey([Covering(), Later(w), Covered(v)]);
    WrittenTable(cfg.compaction.sst, s4.nextId, [Covering(), Later(w), Covered(v)], 0);
  }

  lemma LastOps(v: Bytes, w: Bytes)
    ensures var ops := Interleaved(v, w); ops[..4] == ops[..3] + [FreezeOp] && ops == ops[..4] + [FlushOp(0)]
  {
  }

  lemma InOrder(v: Bytes, w: Bytes)
    ensures KeysIncreasing([Covering(), Later(w), Covered(v)])
  {
    OrderOfKeys(3, 5);
    OrderOfKeys(5, 9);
    OrderOfKeys(3, 9);
  }

  lemma StrictlyByKey(es: seq<Entry>)
    requires KeysIncreasing(es)
    ensures StrictlySorted(es)
  {
    hide Lt;
  }

  /** Only what the one table holds is on offer. */
  lemma OnlyTheTable(s: State, t: Table, x: Entry)
    requires s.active == EmptyMemtable(s.active.nextSeqno) && s.frozen == [] && s.levels == [[t], [], [], []]
    ensures Offered(s, x) <==> x in t.Contents()
  {
    hide Flatten;
    assert s.Memtables() == [s.active];
    if x in t.Contents() {
      assert t in s.levels[0];
      assert Stores(s.levels, x);
    }
  }

  lemma {:induction false} RangeIsTheTable(cfg: EngineConfig, s: State, log: seq<Entry>, t: Table, v: Bytes, w: Bytes)
    requires Inv(cfg, s, log)
    requires s.active == EmptyMemtable(s.active.nextSeqno) && s.frozen == [] && s.levels == [[t], [], [], []]
    requires t.Contents() == [Covering(), Later(w), Covered(v)]
    ensures Merged(s, FROM, TO) == [Covering(), Later(w), Covered(v)]
  {
    hide Inv, Merged, Lt, Flatten, KeysIncreasing, Offered, KeyOf;
    var es := [Covering(), Later(w), Covered(v)];
    InOrder(v, w);
    MergedKeysIncreasing(cfg, s, log, FROM, TO);
    MergedIsLogged(cfg, s, log, FROM, TO);
    forall x
      ensures x in es <==> x in Merged(s, FROM, TO)
    {
      OnlyTheTable(s, t, x);
      if x in es {
        WithinBounds(v, w, x);
        BestOfItsKey(s, t, v, w, x);
        MergedIsBest(cfg, s, log, FROM, TO, x);
      }
    }
    IncreasingUnique(Merged(s, FROM, TO), es);
  }

  lemma WithinBounds(v: Bytes, w: Bytes, x: Entry)
    requires x in [Covering(), Later(w), Covered(v)]
    ensures Lt(FROM, x.key) && Lt(x.key, TO)
  {
    hide Lt, RecordId, ItemKey;
    OrderOfKeys(3, 255);
    OrderOfKeys(5, 255);
    OrderOfKeys(9, 255);
    assert TO == KeyOf(255);
  }

  lemma BestOfItsKey(s: State, t: Table, v: Bytes, w: Bytes, x: Entry)
    requires s.active == EmptyMemtable(s.active.nextSeqno) && s.frozen == [] && s.levels == [[t], [], [], []]
    requires t.Contents() == [Covering(), Later(w), Covered(v)] && x in t.Contents()
    ensures BestOffer(s, x)
  {
    hide Offered, Flatten;
    OnlyTheTable(s, t, x);
    forall f | Offered(s, f) && f.key == x.key
      ensures f.seqno <= x.seqno
    {
      OnlyTheTable(s, t, f);
      assert KeyOf(3)[4] == 3 && KeyOf(5)[4] == 5 && KeyOf(9)[4] == 9;
    }
  }

  /** The range delete hides the item after the one that a page of one item shows. */
  lemma {:induction false} DeleteIsForgotten(v: Bytes, w: Bytes)
    ensures !NoneForgotten([Covering(), Later(w), Covered(v)], [1], [])
  {
    hide Lt, Idle, Covers, MetIn;
    var es := [Covering(), Later(w), Covered(v)];
    TombstoneMet(v, w);
    LaterShows(w);
    assert [] + ([] + [MET]) == [MET] && [] + [MET] == [MET];
    assert es[2..] == [Covered(v)];
    CoveredIsHidden(v);
    assert Shows(es[1], [1], [] + ([] + MetIn(es[..1], [1])));
    assert !Idle(es[2..], [1], [], [] + MetIn(es[..2], [1]));
  }

  const MET: RangeTombstone := RangeTombstone([1], [255, 3], [], 2)

  lemma TombstoneMet(v: Bytes, w: Bytes)
    ensures var es := [Covering(), Later(w), Covered(v)]; MetIn(es[..1], [1]) == [MET] && MetIn(es[..2], [1]) == [MET]
  {
    var es := [Covering(), Later(w), Covered(v)];
    hide Lt, RecordId, ItemKey, KeyOf, MetIn;
    OrderOfKeys(3, 5);
    OrderOfKeys(5, 3);
    assert [255, 255, 3][1..] == [255, 3];
    NothingMet([1]);
    MetOneMore(es, 0, [1]);
    MetOneMore(es, 1, [1]);
    assert es[..0] == [];
  }

  lemma LaterShows(w: Bytes)
    ensures Shows(Later(w), [1], [MET])
  {
    OrderOfKeys(5, 5);
    assert !Hides(MET, [1], [255, 255, 5], 3);
  }

  lemma CoveredIsHidden(v: Bytes)
    ensures !Idle([Covered(v)], [1], [], [MET])
  {
    OrderOfKeys(9, 9);
    LtByHead(3, 255);
    var start: Bytes, item: Bytes := [255, 3], [255, 255, 9];
    assert start[1..] == [3] && item[1..] == [255, 9];
    assert Lt([3], [255, 9]);
    assert Lt(start, item);
    assert Hides([MET][0], [1], item, 1);
    assert CoversEntry([MET], Covered(v));
    PageLists.NothingCovers(Covered(v));
    assert [Covered(v)][..0] == [];
    hide CoversEntry;
    assert MetIn([Covered(v)][..0], [1]) == [];
    assert [Covered(v)][0] == Covered(v);
  }

  lemma RestartsAreClean(cfg: EngineConfig, s: State, log: seq<Entry>, t: Table, v: Bytes, w: Bytes)
    requires Inv(cfg, s, log)
    requires s.active == EmptyMemtable(s.active.nextSeqno) && s.frozen == [] && s.levels == [[t], [], [], []]
    requires t.Contents() == [Covering(), Later(w), Covered(v)]
    ensures CleanRestarts(s, [1], FROM, TO)
  {
    hide Inv, Merged, Flatten, Offered, RecordId;
    MergedIsLogged(cfg, s, log, FROM, TO);
    forall e, x | e in Merged(s, FROM, TO) && IsValue(e, [1]) && x in Merged(s, e.key, TO) && x.key == e.key
      ensures x.kind != RangeDelete
    {
      MergedIsLogged(cfg, s, log, e.key, TO);
      OnlyTheTable(s, t, e);
      OnlyTheTable(s, t, x);
      assert KeyOf(3)[4] == 3 && KeyOf(5)[4] == 5 && KeyOf(9)[4] == 9;
    }
  }

  /** A run whose pages of one item each return more than the unlimited read: the second page starts
      past the flushed range delete and shows the item it covers. */
  lemma {:induction false} PagesForgetARangeDelete(cfg: EngineConfig, v: Bytes, w: Bytes)
    requires cfg.compaction.l0Stop > 0 && cfg.compaction.l0Trigger > 0 && cfg.maxFrozen > 0
    ensures var s := Run(cfg, Interleaved(v, w));
            && StartKey([1], None, None) == Ok(FROM) && EndKey([1], Some([255, 255, 255])) == Ok(TO)
            && forall pageSize :: Remaining(s, [1], FROM, TO, Always(Limit(pageSize, Some(1))), 0, None) != Unlimited(s, [1], FROM, TO)
  {
    hide Run, History, Inv, Merged, NoneForgotten, CleanRestarts, Remaining, Unlimited, Flatten, Interleaved;
    assert Join([1], []) == FROM && Join([1], [255, 255, 255]) == TO;
    var t := AllFlushed(cfg, v, w);
    RunKeeps(cfg, Interleaved(v, w));
    var s, log := Run(cfg, Interleaved(v, w)), History(cfg, Interleaved(v, w));
    RangeIsTheTable(cfg, s, log, t, v, w);
    RestartsAreClean(cfg, s, log, t, v, w);
    DeleteIsForgotten(v, w);
    NoTombstonesLeft(s);
    forall pageSize
      ensures Remaining(s, [1], FROM, TO, Always(Limit(pageSize, Some(1))), 0, None) != Unlimited(s, [1], FROM, TO)
    {
      EvenPaginationIff(cfg, s, log, [1], FROM, TO, Limit(pageSize, None));
    }
  }

  lemma NoTombstonesLeft(s: State)
    requires s.active == EmptyMemtable(s.active.nextSeqno) && s.frozen == []
    ensures TombstonesOf(s.Memtables()) == []
  {
    assert s.Memtables() == [s.active] && [s.active][1..] == [];
  }
}
