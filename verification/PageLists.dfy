/** Cutting one merged list into pages (crates/flushdb-engine/src/read_path.rs): each page starts again
    with the tombstones of the memtables and has forgotten those that earlier pages met. */
module PageLists {
  import opened Wrappers
  import opened ByteStrings
  import opened CompositeKeys
  import opened Entries
  import opened RangeTombstones
  import opened Engine
  import opened RangeReads

  // --- The whole list in one reading ---

  predicate CoversEntry(ts: seq<RangeTombstone>, e: Entry) {
    Covers(ts, RecordId(e.key), ItemKey(e.key), e.seqno)
  }

  /** A value of the record, there to be shown unless a tombstone covers it. */
  predicate IsValue(e: Entry, record: Bytes) {
    RecordId(e.key) == record && !e.IsTombstone()
  }

  /** The tombstone an entry adds to the collector, if any. */
  function TombstoneIn(e: Entry, record: Bytes): seq<RangeTombstone> {
    if RecordId(e.key) == record then Collect([], record, e) else []
  }

  function MetIn(es: seq<Entry>, record: Bytes): seq<RangeTombstone> {
    if es == [] then [] else TombstoneIn(es[0], record) + MetIn(es[1..], record)
  }

  /** Reading without limits: range deletes of the list hide what comes after them. */
  function ReadOn(es: seq<Entry>, record: Bytes, ts: seq<RangeTombstone>): seq<Entry> {
    if es == [] then []
    else (if Shows(es[0], record, ts) then [es[0]] else []) + ReadOn(es[1..], record, ts + TombstoneIn(es[0], record))
  }

  /** What one request allows. */
  datatype Limit = Limit(pageSize: nat, itemLimit: Option<nat>)

  /** Reading page by page. Every request has its own limits, and each page after the first begins with
      the tombstones that `base` gives for the key it resumes at. */
  function ReadPages(es: seq<Entry>, record: Bytes, limits: nat -> Limit, n: nat, base: Bytes -> seq<RangeTombstone>, ts: seq<RangeTombstone>): seq<Entry>
    decreases |es|
  {
    var o := Options(limits(n).pageSize, limits(n).itemLimit, None);
    var (q, rest) := Fill(es, record, o, Progress(ts, [], 0, false));
    if rest == [] || |rest| >= |es| || q.page == [] then q.page
    else q.page + ReadPages(rest, record, limits, n + 1, base, base(q.page[|q.page| - 1].key))
  }

  function Always(limit: Limit): nat -> Limit {
    (n: nat) => limit
  }

  function OnlyBuffered(ts: seq<RangeTombstone>): Bytes -> seq<RangeTombstone> {
    (k: Bytes) => ts
  }

  /** Pages of one limit that begin with the tombstones of the memtables alone. */
  function EvenPages(es: seq<Entry>, record: Bytes, limit: Limit, n: nat, ts: seq<RangeTombstone>): seq<Entry> {
    ReadPages(es, record, Always(limit), n, OnlyBuffered(ts), ts)
  }

  lemma EvenPagesUnfold(es: seq<Entry>, record: Bytes, limit: Limit, n: nat, ts: seq<RangeTombstone>)
    ensures var (q, rest) := Fill(es, record, Options(limit.pageSize, limit.itemLimit, None), Progress(ts, [], 0, false));
            EvenPages(es, record, limit, n, ts) ==
              if rest == [] || |rest| >= |es| || q.page == [] then q.page else q.page + EvenPages(rest, record, limit, n + 1, ts)
  {
  }

  /** Tombstones met before hide no value of the list that is not hidden anyway. */
  ghost predicate Idle(es: seq<Entry>, record: Bytes, ts: seq<RangeTombstone>, before: seq<RangeTombstone>) {
    forall j :: 0 <= j < |es| && IsValue(es[j], record) && CoversEntry(before, es[j]) ==>
      CoversEntry(ts, es[j]) || CoversEntry(MetIn(es[..j], record), es[j])
  }

  /** After every entry the whole reading shows, the tombstones met up to it have nothing left to hide. */
  ghost predicate IdleAfterShown(es: seq<Entry>, record: Bytes, ts: seq<RangeTombstone>, before: seq<RangeTombstone>) {
    forall i :: 0 <= i < |es| && Shows(es[i], record, ts + (before + MetIn(es[..i], record))) ==>
      Idle(es[i + 1..], record, ts, before + MetIn(es[..i + 1], record))
  }

  // --- Coverage ---

  lemma CoversEither(a: seq<RangeTombstone>, b: seq<RangeTombstone>, record: Bytes, item: Bytes, seqno: nat)
    ensures Covers(a + b, record, item, seqno) <==> Covers(a, record, item, seqno) || Covers(b, record, item, seqno)
  {
    hide Hides;
    if Covers(a, record, item, seqno) {
      var i :| 0 <= i < |a| && Hides(a[i], record, item, seqno);
      assert (a + b)[i] == a[i];
    }
    if Covers(b, record, item, seqno) {
      var i :| 0 <= i < |b| && Hides(b[i], record, item, seqno);
      assert (a + b)[|a| + i] == b[i];
    }
    if Covers(a + b, record, item, seqno) {
      var i :| 0 <= i < |a + b| && Hides((a + b)[i], record, item, seqno);
      assert i < |a| ==> (a + b)[i] == a[i];
      assert i >= |a| ==> (a + b)[i] == b[i - |a|];
    }
  }

  lemma CoversJoin(a: seq<RangeTombstone>, b: seq<RangeTombstone>, e: Entry)
    ensures CoversEntry(a + b, e) <==> CoversEntry(a, e) || CoversEntry(b, e)
  {
    CoversEither(a, b, RecordId(e.key), ItemKey(e.key), e.seqno);
  }

  lemma NothingCovers(e: Entry)
    ensures !CoversEntry([], e)
  {
  }

  lemma {:induction false} MetJoin(a: seq<Entry>, b: seq<Entry>, record: Bytes)
    ensures MetIn(a + b, record) == MetIn(a, record) + MetIn(b, record)
  {
    hide TombstoneIn;
    if a == [] {
      assert a + b == b;
    } else {
      assert (a + b)[1..] == a[1..] + b;
      MetJoin(a[1..], b, record);
      Regroup(TombstoneIn(a[0], record), MetIn(a[1..], record), MetIn(b, record));
    }
  }

  lemma MetOneMore(es: seq<Entry>, i: nat, record: Bytes)
    requires i < |es|
    ensures MetIn(es[..i + 1], record) == MetIn(es[..i], record) + TombstoneIn(es[i], record)
  {
    hide TombstoneIn;
    assert es[..i + 1] == es[..i] + [es[i]] && [es[i]][1..] == [];
    MetJoin(es[..i], [es[i]], record);
    assert MetIn([es[i]], record) == TombstoneIn(es[i], record) + [];
  }

  lemma MetSplit(es: seq<Entry>, i: nat, j: nat, record: Bytes)
    requires i <= j <= |es|
    ensures MetIn(es[..j], record) == MetIn(es[..i], record) + MetIn(es[i..][..j - i], record)
  {
    assert es[..j] == es[..i] + es[i..][..j - i];
    MetJoin(es[..i], es[i..][..j - i], record);
  }

  /** `a` covers what `ts` covers, and otherwise only what `before` covers. */
  ghost predicate Between(ts: seq<RangeTombstone>, a: seq<RangeTombstone>, before: seq<RangeTombstone>) {
    forall e :: (CoversEntry(ts, e) ==> CoversEntry(a, e)) && (CoversEntry(a, e) ==> CoversEntry(ts, e) || CoversEntry(before, e))
  }

  lemma BetweenJoin(ts: seq<RangeTombstone>, a: seq<RangeTombstone>, before: seq<RangeTombstone>, more: seq<RangeTombstone>)
    requires Between(ts, a, before)
    ensures Between(ts + more, a + more, before)
  {
    hide CoversEntry;
    forall e
      ensures (CoversEntry(ts + more, e) ==> CoversEntry(a + more, e)) && (CoversEntry(a + more, e) ==> CoversEntry(ts + more, e) || CoversEntry(before, e))
    {
      CoversJoin(ts, more, e);
      CoversJoin(a, more, e);
      assert CoversEntry(ts, e) ==> CoversEntry(a, e);
    }
  }

  lemma BetweenFirst(ts: seq<RangeTombstone>, mid: seq<RangeTombstone>, before: seq<RangeTombstone>)
    requires forall e :: CoversEntry(mid, e) ==> CoversEntry(before, e)
    ensures Between(ts, ts + mid, before)
  {
    hide CoversEntry;
    forall e
      ensures (CoversEntry(ts, e) ==> CoversEntry(ts + mid, e)) && (CoversEntry(ts + mid, e) ==> CoversEntry(ts, e) || CoversEntry(before, e))
    {
      CoversJoin(ts, mid, e);
    }
  }

  lemma IdleTail(es: seq<Entry>, record: Bytes, ts: seq<RangeTombstone>, before: seq<RangeTombstone>)
    requires es != [] && Idle(es, record, ts, before)
    ensures Idle(es[1..], record, ts + TombstoneIn(es[0], record), before)
  {
    hide CoversEntry, IsValue, TombstoneIn;
    var tail, t := es[1..], TombstoneIn(es[0], record);
    forall j | 0 <= j < |tail| && IsValue(tail[j], record) && CoversEntry(before, tail[j])
      ensures CoversEntry(ts + t, tail[j]) || CoversEntry(MetIn(tail[..j], record), tail[j])
    {
      assert es[j + 1] == tail[j] && es[..j + 1][1..] == tail[..j];
      CoversJoin(ts, t, tail[j]);
      CoversJoin(t, MetIn(tail[..j], record), tail[j]);
    }
  }

  /** Idle tombstones do not change a reading. */
  lemma {:induction false} SameReading(es: seq<Entry>, record: Bytes, ts: seq<RangeTombstone>, a: seq<RangeTombstone>, before: seq<RangeTombstone>)
    requires Idle(es, record, ts, before) && Between(ts, a, before)
    ensures ReadOn(es, record, a) == ReadOn(es, record, ts)
  {
    if es != [] {
      hide CoversEntry, TombstoneIn, Idle, Between;
      IdleTail(es, record, ts, before);
      BetweenJoin(ts, a, before, TombstoneIn(es[0], record));
      SameReading(es[1..], record, ts + TombstoneIn(es[0], record), a + TombstoneIn(es[0], record), before);
      SameAtHead(es, record, ts, a, before);
    }
  }

  lemma SameAtHead(es: seq<Entry>, record: Bytes, ts: seq<RangeTombstone>, a: seq<RangeTombstone>, before: seq<RangeTombstone>)
    requires es != [] && Idle(es, record, ts, before) && Between(ts, a, before)
    ensures Shows(es[0], record, a) <==> Shows(es[0], record, ts)
  {
    NothingCovers(es[0]);
    ShowsUncovered(es[0], record, a);
    ShowsUncovered(es[0], record, ts);
    hide CoversEntry, IsValue, Shows;
    assert MetIn(es[..0], record) == [];
  }

  lemma ShowsUncovered(e: Entry, record: Bytes, ts: seq<RangeTombstone>)
    ensures Shows(e, record, ts) <==> IsValue(e, record) && !CoversEntry(ts, e)
  {
  }

  // --- One page ---

  lemma CollectAppends(ts: seq<RangeTombstone>, record: Bytes, e: Entry)
    ensures Collect(ts, record, e) == ts + Collect([], record, e)
  {
  }

  /** One turn of the loop, with nothing to skip. */
  lemma VisitFresh(e: Entry, record: Bytes, o: Options, p: Progress)
    requires o.resume.None?
    ensures var shown := Shows(e, record, p.ts); var page, bytes := p.page + [e], p.bytes + EntryBytes(e);
            Visit(e, record, o, p) == Progress(p.ts + TombstoneIn(e, record), if shown then page else p.page,
                                               if shown then bytes else p.bytes, if shown then Full(page, bytes, o) else p.full)
  {
    CollectAppends(p.ts, record, e);
    assert e.kind != RangeDelete ==> p.ts + [] == p.ts;
  }

  /** Where a full page stopped: right after the entry that filled it. */
  ghost predicate FilledAt(es: seq<Entry>, i: nat, record: Bytes, p: Progress, q: Progress, rest: seq<Entry>) {
    && i < |es| && rest == es[i + 1..]
    && q.ts == p.ts + MetIn(es[..i + 1], record)
    && q.page != [] && q.page[|q.page| - 1] == es[i]
    && Shows(es[i], record, p.ts + MetIn(es[..i], record))
  }

  lemma FillUnfolds(es: seq<Entry>, record: Bytes, o: Options, p: Progress)
    ensures Fill(es, record, o, p) ==
            if es == [] || p.full then (p, es) else Fill(es[1..], record, o, Visit(es[0], record, o, p))
  {
  }

  /** A page is the next part of the reading. */
  lemma {:induction false} FillTakesNext(es: seq<Entry>, record: Bytes, o: Options, p: Progress) returns (i: nat)
    requires o.resume.None? && !p.full
    ensures var (q, rest) := Fill(es, record, o, p);
            && q.page + ReadOn(rest, record, q.ts) == p.page + ReadOn(es, record, p.ts)
            && if q.full then FilledAt(es, i, record, p, q, rest) else rest == [] && q.ts == p.ts + MetIn(es, record)
    decreases |es|
  {
    hide Visit, ReadOn, Fill, Shows, Full, FilledAt, MetIn, TombstoneIn;
    FillUnfolds(es, record, o, p);
    i := 0;
    if es == [] {
      NothingMet(record);
      assert p.ts + [] == p.ts;
    } else {
      var next := Visit(es[0], record, o, p);
      TurnKeeps(es, record, o, p);
      FillUnfolds(es[1..], record, o, next);
      if next.full {
        FilledHere(es, record, o, p);
      } else {
        i := FillTakesNext(es[1..], record, o, next);
        var (q, rest) := Fill(es[1..], record, o, next);
        FilledLater(es, i, record, o, p, q, rest);
        i := i + 1;
      }
    }
  }

  lemma NothingMet(record: Bytes)
    ensures MetIn([], record) == []
  {
  }

  lemma TurnKeeps(es: seq<Entry>, record: Bytes, o: Options, p: Progress)
    requires es != [] && o.resume.None?
    ensures var next := Visit(es[0], record, o, p);
            next.page + ReadOn(es[1..], record, next.ts) == p.page + ReadOn(es, record, p.ts)
  {
    hide Visit, Shows, Full, EntryBytes, TombstoneIn;
    VisitFresh(es[0], record, o, p);
    var tail := ReadOn(es[1..], record, p.ts + TombstoneIn(es[0], record));
    Regroup(p.page, [es[0]], tail);
    Regroup(p.page, [], tail);
    assert p.page + [] == p.page;
  }

  lemma FilledHere(es: seq<Entry>, record: Bytes, o: Options, p: Progress)
    requires es != [] && o.resume.None? && !p.full && Visit(es[0], record, o, p).full
    ensures FilledAt(es, 0, record, p, Visit(es[0], record, o, p), es[1..])
  {
    hide Visit, Shows, Full, EntryBytes, TombstoneIn;
    VisitFresh(es[0], record, o, p);
    MetOneMore(es, 0, record);
    assert es[..0] == [] && p.ts + [] == p.ts && [] + TombstoneIn(es[0], record) == TombstoneIn(es[0], record);
  }

  lemma FilledLater(es: seq<Entry>, i: nat, record: Bytes, o: Options, p: Progress, q: Progress, rest: seq<Entry>)
    requires es != [] && o.resume.None?
    ensures FilledAt(es[1..], i, record, Visit(es[0], record, o, p), q, rest) ==> FilledAt(es, i + 1, record, p, q, rest)
    ensures q.ts == Visit(es[0], record, o, p).ts + MetIn(es[1..], record) ==> q.ts == p.ts + MetIn(es, record)
  {
    hide Visit, Shows, Full, EntryBytes, TombstoneIn;
    VisitFresh(es[0], record, o, p);
    var t := TombstoneIn(es[0], record);
    Regroup(p.ts, t, MetIn(es[1..], record));
    if i < |es[1..]| {
      MetSplit(es, 1, i + 1, record);
      MetSplit(es, 1, i + 2, record);
      MetOneMore(es, 0, record);
      assert es[..0] == [] && [] + t == t;
      Regroup(p.ts, t, MetIn(es[1..][..i], record));
      Regroup(p.ts, t, MetIn(es[1..][..i + 1], record));
      assert es[1..][i + 1..] == es[i + 2..];
    }
  }

  // --- When pages make up the whole reading ---

  lemma ShiftIdle(es: seq<Entry>, f: nat, record: Bytes, before: seq<RangeTombstone>, k: nat)
    requires f < |es| && k <= |es| - f - 1
    ensures before + MetIn(es[..f + 1 + k], record) == (before + MetIn(es[..f + 1], record)) + MetIn(es[f + 1..][..k], record)
  {
    MetSplit(es, f + 1, f + 1 + k, record);
    Regroup(before, MetIn(es[..f + 1], record), MetIn(es[f + 1..][..k], record));
  }

  lemma IdleAfterRest(es: seq<Entry>, f: nat, record: Bytes, ts: seq<RangeTombstone>, before: seq<RangeTombstone>)
    requires f < |es| && IdleAfterShown(es, record, ts, before)
    ensures IdleAfterShown(es[f + 1..], record, ts, before + MetIn(es[..f + 1], record))
  {
    hide Shows, Idle, MetIn;
    var rest := es[f + 1..];
    forall i | 0 <= i < |rest| && Shows(rest[i], record, ts + ((before + MetIn(es[..f + 1], record)) + MetIn(rest[..i], record)))
      ensures Idle(rest[i + 1..], record, ts, (before + MetIn(es[..f + 1], record)) + MetIn(rest[..i + 1], record))
    {
      ShiftIdle(es, f, record, before, i);
      ShiftIdle(es, f, record, before, i + 1);
      assert rest[i + 1..] == es[f + 1 + i + 1..] && rest[i] == es[f + 1 + i];
    }
  }

  /** An entry that a page shows, the whole reading shows. */
  lemma ShownInWhole(es: seq<Entry>, i: nat, record: Bytes, ts: seq<RangeTombstone>, before: seq<RangeTombstone>)
    requires i < |es| && Idle(es, record, ts, before) && Shows(es[i], record, ts + MetIn(es[..i], record))
    ensures Shows(es[i], record, ts + (before + MetIn(es[..i], record)))
  {
    ShowsUncovered(es[i], record, ts + MetIn(es[..i], record));
    ShowsUncovered(es[i], record, ts + (before + MetIn(es[..i], record)));
    hide Shows, CoversEntry, IsValue;
    CoversJoin(ts, MetIn(es[..i], record), es[i]);
    CoversJoin(ts, before + MetIn(es[..i], record), es[i]);
    CoversJoin(before, MetIn(es[..i], record), es[i]);
  }

  lemma {:induction false} PagesMakeWhole(es: seq<Entry>, record: Bytes, limit: Limit, n: nat, ts: seq<RangeTombstone>, before: seq<RangeTombstone>)
    requires Idle(es, record, ts, before) && IdleAfterShown(es, record, ts, before)
    ensures EvenPages(es, record, limit, n, ts) == ReadOn(es, record, ts + before)
    decreases |es|
  {
    hide Idle, IdleAfterShown, ReadOn, Fill, Shows, MetIn, Between, CoversEntry, EvenPages;
    EvenPagesUnfold(es, record, limit, n, ts);
    var o, p := Options(limit.pageSize, limit.itemLimit, None), Progress(ts, [], 0, false);
    var i := FillTakesNext(es, record, o, p);
    var (q, rest) := Fill(es, record, o, p);
    BetweenFirst(ts, before, before);
    SameReading(es, record, ts, ts + before, before);
    assert [] + ReadOn(es, record, ts) == ReadOn(es, record, ts);
    NothingRead(record, limit, n, ts, q.ts);
    if q.full && rest != [] {
      var after := before + MetIn(es[..i + 1], record);
      ShownInWhole(es, i, record, ts, before);
      IdleAfterRest(es, i, record, ts, before);
      RestIsIdle(es, i, record, ts, before);
      PagesMakeWhole(rest, record, limit, n + 1, ts, after);
      CoversMore(before, MetIn(es[..i + 1], record));
      BetweenFirst(ts, MetIn(es[..i + 1], record), after);
      BetweenFirst(ts, after, after);
      SameReading(rest, record, ts, q.ts, after);
      SameReading(rest, record, ts, ts + after, after);
    } else {
      assert q.page + [] == q.page;
    }
  }

  lemma RestIsIdle(es: seq<Entry>, i: nat, record: Bytes, ts: seq<RangeTombstone>, before: seq<RangeTombstone>)
    requires i < |es| && IdleAfterShown(es, record, ts, before) && Shows(es[i], record, ts + (before + MetIn(es[..i], record)))
    ensures Idle(es[i + 1..], record, ts, before + MetIn(es[..i + 1], record))
  {
    hide Shows, Idle, MetIn;
  }

  lemma CoversMore(a: seq<RangeTombstone>, b: seq<RangeTombstone>)
    ensures forall e :: CoversEntry(b, e) ==> CoversEntry(a + b, e)
  {
    hide CoversEntry;
    forall e
      ensures CoversEntry(b, e) ==> CoversEntry(a + b, e)
    {
      CoversJoin(a, b, e);
    }
  }

  lemma NothingRead(record: Bytes, limit: Limit, n: nat, ts: seq<RangeTombstone>, a: seq<RangeTombstone>)
    ensures EvenPages([], record, limit, n, ts) == [] && ReadOn([], record, a) == []
  {
  }

  // --- And when they do not ---

  /** A reading under more tombstones shows nothing before the first entry shown under fewer. */
  lemma {:induction false} ShownLater(es: seq<Entry>, i: nat, record: Bytes, ts: seq<RangeTombstone>, before: seq<RangeTombstone>)
    requires i <= |es| && forall j :: 0 <= j < i ==> !Shows(es[j], record, ts + MetIn(es[..j], record))
    ensures ReadOn(es, record, ts + before) == ReadOn(es[i..], record, ts + (before + MetIn(es[..i], record)))
    decreases i
  {
    hide Shows, TombstoneIn;
    if i == 0 {
      assert before + [] == before && es[0..] == es;
    } else {
      var n := i - 1;
      ShownLater(es, n, record, ts, before);
      MoreHides(es[n], record, ts, before, MetIn(es[..n], record));
      MetOneMore(es, n, record);
      var now := before + MetIn(es[..n], record);
      assert es[n..][1..] == es[i..];
      Regroup(ts, now, TombstoneIn(es[n], record));
      Regroup(before, MetIn(es[..n], record), TombstoneIn(es[n], record));
      var tail := ReadOn(es[i..], record, ts + now + TombstoneIn(es[n], record));
      assert [] + tail == tail;
    }
  }

  lemma MoreHides(e: Entry, record: Bytes, ts: seq<RangeTombstone>, before: seq<RangeTombstone>, met: seq<RangeTombstone>)
    ensures Shows(e, record, ts + (before + met)) ==> Shows(e, record, ts + met)
  {
    ShowsUncovered(e, record, ts + (before + met));
    ShowsUncovered(e, record, ts + met);
    hide Shows, CoversEntry, IsValue;
    CoversJoin(ts, met, e);
    CoversJoin(ts, before + met, e);
    CoversJoin(before, met, e);
  }

  /** With one item to a page, a page stops at the first entry it shows. */
  lemma {:induction false} OneItem(es: seq<Entry>, record: Bytes, pageSize: nat, p: Progress) returns (i: nat)
    requires !p.full && p.page == []
    ensures i <= |es| && forall j :: 0 <= j < i ==> !Shows(es[j], record, p.ts + MetIn(es[..j], record))
    ensures var (q, rest) := Fill(es, record, Options(pageSize, Some(1), None), p);
            if i < |es| then Shows(es[i], record, p.ts + MetIn(es[..i], record)) && q.page == [es[i]] && rest == es[i + 1..]
            else q.page == [] && rest == []
    decreases |es|
  {
    hide Visit, Shows, Fill, TombstoneIn;
    var o := Options(pageSize, Some(1), None);
    FillUnfolds(es, record, o, p);
    i := 0;
    if es != [] {
      var next, tail := Visit(es[0], record, o, p), es[1..];
      VisitFresh(es[0], record, o, p);
      assert p.ts + MetIn(es[..0], record) == p.ts;
      FillUnfolds(tail, record, o, next);
      if !Shows(es[0], record, p.ts) {
        i := OneItem(tail, record, pageSize, next);
        forall j | 0 <= j <= |tail|
          ensures p.ts + MetIn(es[..j + 1], record) == next.ts + MetIn(tail[..j], record)
        {
          MetSplit(es, 1, j + 1, record);
          MetOneMore(es, 0, record);
          assert [] + TombstoneIn(es[0], record) == TombstoneIn(es[0], record);
          Regroup(p.ts, TombstoneIn(es[0], record), MetIn(tail[..j], record));
        }
        assert forall j :: 0 < j < |es| ==> es[j] == tail[j - 1];
        assert i < |tail| ==> tail[i + 1..] == es[i + 2..];
        i := i + 1;
      }
    }
  }

  /** If the pages of one item each make up the whole reading, no tombstone is missed. */
  lemma {:induction false} WholeNeedsIdle(es: seq<Entry>, record: Bytes, pageSize: nat, n: nat, ts: seq<RangeTombstone>, before: seq<RangeTombstone>)
    requires KeysIncreasing(es) && EvenPages(es, record, Limit(pageSize, Some(1)), n, ts) == ReadOn(es, record, ts + before)
    ensures Idle(es, record, ts, before) && IdleAfterShown(es, record, ts, before)
    decreases |es|
  {
    hide Idle, IdleAfterShown, ReadOn, Fill, Shows, MetIn, KeysIncreasing, EvenPages;
    var i := OneItem(es, record, pageSize, Progress(ts, [], 0, false));
    ShownLater(es, i, record, ts, before);
    if i < |es| {
      var rest := es[i + 1..];
      var after := before + MetIn(es[..i + 1], record);
      TailIncreasing(es, i);
      PageIsHead(es, i, record, pageSize, n, ts, before);
      WholeNeedsIdle(rest, record, pageSize, n + 1, ts, after);
      IdleFromRest(es, i, record, ts, before);
      ShownFromRest(es, i, record, ts, before);
    } else {
      NothingShownIsIdle(es, record, ts, before);
    }
  }

  lemma TailIncreasing(es: seq<Entry>, i: nat)
    requires KeysIncreasing(es) && i < |es|
    ensures KeysIncreasing(es[i + 1..]) && es[i] !in es[i + 1..]
  {
    LtIrreflexive(es[i].key);
    hide Lt;
    var rest := es[i + 1..];
    assert forall j :: 0 <= j < |rest| ==> rest[j] == es[i + 1 + j];
  }

  lemma {:induction false} ReadOnMembers(es: seq<Entry>, record: Bytes, ts: seq<RangeTombstone>)
    ensures forall e :: e in ReadOn(es, record, ts) ==> e in es && IsValue(e, record)
  {
    hide RecordId, ItemKey, Covers, TombstoneIn;
    if es != [] {
      ReadOnMembers(es[1..], record, ts + TombstoneIn(es[0], record));
    }
  }

  /** The first page's entry heads the whole reading too, and the rest of both agree. */
  lemma PageIsHead(es: seq<Entry>, i: nat, record: Bytes, pageSize: nat, n: nat, ts: seq<RangeTombstone>, before: seq<RangeTombstone>)
    requires i < |es| && es[i] !in es[i + 1..]
    requires EvenPages(es, record, Limit(pageSize, Some(1)), n, ts) == ReadOn(es, record, ts + before)
    requires ReadOn(es, record, ts + before) == ReadOn(es[i..], record, ts + (before + MetIn(es[..i], record)))
    requires var (q, rest) := Fill(es, record, Options(pageSize, Some(1), None), Progress(ts, [], 0, false));
             q.page == [es[i]] && rest == es[i + 1..]
    ensures Shows(es[i], record, ts + (before + MetIn(es[..i], record)))
    ensures EvenPages(es[i + 1..], record, Limit(pageSize, Some(1)), n + 1, ts) == ReadOn(es[i + 1..], record, ts + (before + MetIn(es[..i + 1], record)))
  {
    hide Shows, Fill, TombstoneIn, MetIn, EvenPages;
    var rest, now := es[i + 1..], before + MetIn(es[..i], record);
    var limit := Limit(pageSize, Some(1));
    var pages := EvenPages(rest, record, limit, n + 1, ts);
    EvenPagesUnfold(es, record, limit, n, ts);
    NothingRead(record, limit, n + 1, ts, ts);
    assert EvenPages(es, record, limit, n, ts) == [es[i]] + pages;
    MetOneMore(es, i, record);
    Regroup(before, MetIn(es[..i], record), TombstoneIn(es[i], record));
    Regroup(ts, now, TombstoneIn(es[i], record));
    var whole := ReadOn(rest, record, ts + (before + MetIn(es[..i + 1], record)));
    assert es[i..][1..] == rest;
    assert ReadOn(es[i..], record, ts + now) == (if Shows(es[i], record, ts + now) then [es[i]] else []) + whole;
    ReadOnMembers(rest, record, ts + (before + MetIn(es[..i + 1], record)));
    hide ReadOn;
    assert [] + whole == whole && ([es[i]] + pages)[0] == es[i];
    assert Shows(es[i], record, ts + now);
    assert ([es[i]] + pages)[1..] == pages && ([es[i]] + whole)[1..] == whole;
  }

  /** What is not shown is hidden, or is no value of the record. */
  lemma NotShown(e: Entry, record: Bytes, ts: seq<RangeTombstone>, met: seq<RangeTombstone>)
    requires !Shows(e, record, ts + met) && IsValue(e, record)
    ensures CoversEntry(ts, e) || CoversEntry(met, e)
  {
    ShowsUncovered(e, record, ts + met);
    CoversJoin(ts, met, e);
  }

  lemma NothingShownIsIdle(es: seq<Entry>, record: Bytes, ts: seq<RangeTombstone>, before: seq<RangeTombstone>)
    requires forall j :: 0 <= j < |es| ==> !Shows(es[j], record, ts + MetIn(es[..j], record))
    ensures Idle(es, record, ts, before) && IdleAfterShown(es, record, ts, before)
  {
    hide Shows, CoversEntry, IsValue, MetIn;
    forall j | 0 <= j < |es|
      ensures IsValue(es[j], record) ==> CoversEntry(ts, es[j]) || CoversEntry(MetIn(es[..j], record), es[j])
      ensures !Shows(es[j], record, ts + (before + MetIn(es[..j], record)))
    {
      MoreHides(es[j], record, ts, before, MetIn(es[..j], record));
      if IsValue(es[j], record) {
        NotShown(es[j], record, ts, MetIn(es[..j], record));
      }
    }
  }

  lemma IdleFromRest(es: seq<Entry>, i: nat, record: Bytes, ts: seq<RangeTombstone>, before: seq<RangeTombstone>)
    requires i < |es| && Idle(es[i + 1..], record, ts, before + MetIn(es[..i + 1], record))
    requires forall j :: 0 <= j < i ==> !Shows(es[j], record, ts + MetIn(es[..j], record))
    requires Shows(es[i], record, ts + (before + MetIn(es[..i], record)))
    ensures Idle(es, record, ts, before)
  {
    hide Shows, CoversEntry, IsValue, MetIn;
    var rest := es[i + 1..];
    forall j | 0 <= j < |es| && IsValue(es[j], record) && CoversEntry(before, es[j])
      ensures CoversEntry(ts, es[j]) || CoversEntry(MetIn(es[..j], record), es[j])
    {
      if j < i {
        NotShown(es[j], record, ts, MetIn(es[..j], record));
      } else if j == i {
        ShowsUncovered(es[j], record, ts + (before + MetIn(es[..i], record)));
        CoversJoin(ts, before + MetIn(es[..i], record), es[j]);
        CoversJoin(before, MetIn(es[..i], record), es[j]);
        assert false;
      } else {
        var k := j - i - 1;
        assert rest[k] == es[j];
        CoversJoin(before, MetIn(es[..i + 1], record), es[j]);
        MetSplit(es, i + 1, j, record);
        CoversJoin(MetIn(es[..i + 1], record), MetIn(rest[..k], record), es[j]);
      }
    }
  }

  lemma ShownFromRest(es: seq<Entry>, i: nat, record: Bytes, ts: seq<RangeTombstone>, before: seq<RangeTombstone>)
    requires i < |es| && Idle(es[i + 1..], record, ts, before + MetIn(es[..i + 1], record))
    requires IdleAfterShown(es[i + 1..], record, ts, before + MetIn(es[..i + 1], record))
    requires forall j :: 0 <= j < i ==> !Shows(es[j], record, ts + MetIn(es[..j], record))
    ensures IdleAfterShown(es, record, ts, before)
  {
    hide Shows, Idle, MetIn;
    var rest := es[i + 1..];
    forall j | 0 <= j < |es| && Shows(es[j], record, ts + (before + MetIn(es[..j], record)))
      ensures Idle(es[j + 1..], record, ts, before + MetIn(es[..j + 1], record))
    {
      if j < i {
        MoreHides(es[j], record, ts, before, MetIn(es[..j], record));
        assert false;
      } else if j > i {
        var k := j - i - 1;
        assert rest[k] == es[j] && rest[k + 1..] == es[j + 1..];
        ShiftIdle(es, i, record, before, k);
        ShiftIdle(es, i, record, before, k + 1);
      }
    }
  }

  // --- The exact condition ---

  /** No tombstone met up to an entry that is shown has a value left to hide after it. */
  ghost predicate NoneForgotten(es: seq<Entry>, record: Bytes, ts: seq<RangeTombstone>) {
    IdleAfterShown(es, record, ts, [])
  }

  lemma AlwaysIdle(es: seq<Entry>, record: Bytes, ts: seq<RangeTombstone>)
    ensures Idle(es, record, ts, [])
  {
    forall j | 0 <= j < |es|
      ensures !CoversEntry([], es[j])
    {
      NothingCovers(es[j]);
    }
    hide CoversEntry;
  }

  /** Even pages make up the whole reading for every limit if and only if no tombstone is forgotten that
      still has something to hide; and pages of one item each tell. */
  lemma {:induction false} EvenPagesAgreeIff(es: seq<Entry>, record: Bytes, limit: Limit, ts: seq<RangeTombstone>)
    requires KeysIncreasing(es)
    ensures NoneForgotten(es, record, ts) ==> EvenPages(es, record, limit, 0, ts) == ReadOn(es, record, ts)
    ensures EvenPages(es, record, Limit(limit.pageSize, Some(1)), 0, ts) == ReadOn(es, record, ts) <==> NoneForgotten(es, record, ts)
  {
    hide Idle, IdleAfterShown, ReadOn, EvenPages, KeysIncreasing;
    assert ts + [] == ts;
    AlwaysIdle(es, record, ts);
    var one := Limit(limit.pageSize, Some(1));
    if NoneForgotten(es, record, ts) {
      PagesMakeWhole(es, record, limit, 0, ts, []);
      PagesMakeWhole(es, record, one, 0, ts, []);
    }
    if EvenPages(es, record, one, 0, ts) == ReadOn(es, record, ts) {
      WholeNeedsIdle(es, record, limit.pageSize, 0, ts, []);
    }
  }

  // --- Any limits, any restarts ---

  /** Two sets of tombstones hide the same values of the list. */
  ghost predicate HideTheSame(es: seq<Entry>, record: Bytes, a: seq<RangeTombstone>, b: seq<RangeTombstone>) {
    forall j :: 0 <= j < |es| && IsValue(es[j], record) ==>
      (CoversEntry(a + MetIn(es[..j], record), es[j]) <==> CoversEntry(b + MetIn(es[..j], record), es[j]))
  }

  /** After every entry the whole reading shows, a page that resumes there begins with tombstones that
      hide the same as those of the whole reading. */
  ghost predicate ResumesEverywhere(es: seq<Entry>, record: Bytes, base: Bytes -> seq<RangeTombstone>, ts: seq<RangeTombstone>) {
    forall i :: 0 <= i < |es| && Shows(es[i], record, ts + MetIn(es[..i], record)) ==>
      HideTheSame(es[i + 1..], record, ts + MetIn(es[..i + 1], record), base(es[i].key))
  }

  lemma HideTail(es: seq<Entry>, record: Bytes, a: seq<RangeTombstone>, b: seq<RangeTombstone>)
    requires es != []
    ensures var t := TombstoneIn(es[0], record);
            HideTheSame(es, record, a, b) <==> (Shows(es[0], record, a) <==> Shows(es[0], record, b)) && HideTheSame(es[1..], record, a + t, b + t)
  {
    ShowsUncovered(es[0], record, a);
    ShowsUncovered(es[0], record, b);
    hide Shows, IsValue, CoversEntry, TombstoneIn;
    var tail, t := es[1..], TombstoneIn(es[0], record);
    assert es[..0] == [] && a + [] == a && b + [] == b && MetIn(es[..0], record) == [];
    forall j | 0 < j < |es|
      ensures es[j] == tail[j - 1]
      ensures a + MetIn(es[..j], record) == a + t + MetIn(tail[..j - 1], record)
      ensures b + MetIn(es[..j], record) == b + t + MetIn(tail[..j - 1], record)
    {
      assert es[..j][1..] == tail[..j - 1];
      Regroup(a, t, MetIn(tail[..j - 1], record));
      Regroup(b, t, MetIn(tail[..j - 1], record));
    }
    hide MetIn;
    if HideTheSame(es, record, a, b) {
      forall j | 0 <= j < |tail| && IsValue(tail[j], record)
        ensures CoversEntry(a + t + MetIn(tail[..j], record), tail[j]) <==> CoversEntry(b + t + MetIn(tail[..j], record), tail[j])
      {
        assert es[j + 1] == tail[j];
      }
    }
  }

  lemma SameHeads(e: Entry, inA: bool, inB: bool, a: seq<Entry>, b: seq<Entry>)
    requires e !in a && e !in b
    ensures (if inA then [e] else []) + a == (if inB then [e] else []) + b <==> inA == inB && a == b
  {
    assert [] + a == a && [] + b == b;
    assert ([e] + a)[0] == e && ([e] + b)[0] == e && ([e] + a)[1..] == a && ([e] + b)[1..] == b;
    assert a != [] ==> a[0] in a;
    assert b != [] ==> b[0] in b;
  }

  /** A reading tells which values are hidden. */
  lemma {:induction false} SameReadingIff(es: seq<Entry>, record: Bytes, a: seq<RangeTombstone>, b: seq<RangeTombstone>)
    requires KeysIncreasing(es)
    ensures ReadOn(es, record, a) == ReadOn(es, record, b) <==> HideTheSame(es, record, a, b)
  {
    hide Shows, TombstoneIn, HideTheSame, KeysIncreasing, IsValue;
    if es == [] {
      NothingToHide(record, a, b);
    } else {
      var tail, t := es[1..], TombstoneIn(es[0], record);
      TailIncreasing(es, 0);
      SameReadingIff(tail, record, a + t, b + t);
      HideTail(es, record, a, b);
      ReadOnMembers(tail, record, a + t);
      ReadOnMembers(tail, record, b + t);
      SameHeads(es[0], Shows(es[0], record, a), Shows(es[0], record, b), ReadOn(tail, record, a + t), ReadOn(tail, record, b + t));
    }
  }

  lemma NothingToHide(record: Bytes, a: seq<RangeTombstone>, b: seq<RangeTombstone>)
    ensures HideTheSame([], record, a, b)
  {
  }

  lemma ResumesRest(es: seq<Entry>, i: nat, record: Bytes, base: Bytes -> seq<RangeTombstone>, ts: seq<RangeTombstone>)
    requires i < |es| && ResumesEverywhere(es, record, base, ts)
    ensures ResumesEverywhere(es[i + 1..], record, base, ts + MetIn(es[..i + 1], record))
  {
    hide Shows, HideTheSame, MetIn;
    var rest := es[i + 1..];
    forall k | 0 <= k <= |rest|
      ensures ts + MetIn(es[..i + 1 + k], record) == ts + MetIn(es[..i + 1], record) + MetIn(rest[..k], record)
    {
      MetSplit(es, i + 1, i + 1 + k, record);
      Regroup(ts, MetIn(es[..i + 1], record), MetIn(rest[..k], record));
    }
    forall k | 0 <= k < |rest| && Shows(rest[k], record, ts + MetIn(es[..i + 1], record) + MetIn(rest[..k], record))
      ensures HideTheSame(rest[k + 1..], record, ts + MetIn(es[..i + 1], record) + MetIn(rest[..k + 1], record), base(rest[k].key))
    {
      var j := i + 1 + k;
      assert rest[k] == es[j] && rest[k + 1..] == es[j + 1..];
      assert ts + MetIn(es[..j + 1], record) == ts + MetIn(es[..i + 1], record) + MetIn(rest[..k + 1], record);
    }
  }

  /** The whole reading goes on after an entry it shows. */
  lemma {:induction false} ReadingSplits(es: seq<Entry>, i: nat, record: Bytes, ts: seq<RangeTombstone>)
    requires i <= |es|
    ensures ReadOn(es, record, ts) == ReadOn(es[..i], record, ts) + ReadOn(es[i..], record, ts + MetIn(es[..i], record))
    decreases |es|
  {
    hide Shows, TombstoneIn;
    if i == 0 {
      assert es[..0] == [] && es[0..] == es && ts + [] == ts;
      assert [] + ReadOn(es, record, ts) == ReadOn(es, record, ts);
    } else {
      var t := TombstoneIn(es[0], record);
      ReadingSplits(es[1..], i - 1, record, ts + t);
      assert es[..i][1..] == es[1..][..i - 1] && es[1..][i - 1..] == es[i..] && es[..i][0] == es[0];
      Regroup(ts, t, MetIn(es[1..][..i - 1], record));
      Regroup(if Shows(es[0], record, ts) then [es[0]] else [], ReadOn(es[1..][..i - 1], record, ts + t),
              ReadOn(es[i..], record, ts + t + MetIn(es[1..][..i - 1], record)));
    }
  }

  /** A page from tombstones that hide the same stops where the whole reading shows an entry. */
  lemma PageStopsAtShown(es: seq<Entry>, i: nat, record: Bytes, a: seq<RangeTombstone>, ts: seq<RangeTombstone>)
    requires i < |es| && HideTheSame(es, record, ts, a) && Shows(es[i], record, a + MetIn(es[..i], record))
    ensures Shows(es[i], record, ts + MetIn(es[..i], record))
  {
    ShowsUncovered(es[i], record, a + MetIn(es[..i], record));
    ShowsUncovered(es[i], record, ts + MetIn(es[..i], record));
    hide Shows, IsValue, CoversEntry, MetIn;
  }

  lemma HideRest(es: seq<Entry>, i: nat, record: Bytes, a: seq<RangeTombstone>, b: seq<RangeTombstone>)
    requires i < |es| && HideTheSame(es, record, a, b)
    ensures HideTheSame(es[i + 1..], record, a + MetIn(es[..i + 1], record), b + MetIn(es[..i + 1], record))
  {
    hide IsValue, CoversEntry, MetIn;
    var rest, met := es[i + 1..], MetIn(es[..i + 1], record);
    forall k | 0 <= k < |rest| && IsValue(rest[k], record)
      ensures CoversEntry(a + met + MetIn(rest[..k], record), rest[k]) <==> CoversEntry(b + met + MetIn(rest[..k], record), rest[k])
    {
      assert rest[k] == es[i + 1 + k];
      MetSplit(es, i + 1, i + 1 + k, record);
      Regroup(a, met, MetIn(rest[..k], record));
      Regroup(b, met, MetIn(rest[..k], record));
    }
  }

  lemma {:induction false} ResumedPagesMakeWhole(es: seq<Entry>, record: Bytes, limits: nat -> Limit, n: nat, base: Bytes -> seq<RangeTombstone>, a: seq<RangeTombstone>, ts: seq<RangeTombstone>)
    requires KeysIncreasing(es) && HideTheSame(es, record, ts, a) && ResumesEverywhere(es, record, base, ts)
    ensures ReadPages(es, record, limits, n, base, a) == ReadOn(es, record, ts)
    decreases |es|
  {
    hide HideTheSame, ResumesEverywhere, ReadOn, Fill, Shows, MetIn, KeysIncreasing;
    var o, p := Options(limits(n).pageSize, limits(n).itemLimit, None), Progress(a, [], 0, false);
    var i := FillTakesNext(es, record, o, p);
    var (q, rest) := Fill(es, record, o, p);
    SameReadingIff(es, record, ts, a);
    NothingRead(record, limits(n), n, a, q.ts);
    assert [] + ReadOn(es, record, a) == ReadOn(es, record, a) && q.page + [] == q.page;
    if rest != [] {
      var now := ts + MetIn(es[..i + 1], record);
      TailIncreasing(es, i);
      PageStopsAtShown(es, i, record, a, ts);
      ResumesHere(es, i, record, base, ts);
      ResumesRest(es, i, record, base, ts);
      ResumedPagesMakeWhole(rest, record, limits, n + 1, base, base(es[i].key), now);
      HideRest(es, i, record, ts, a);
      SameReadingIff(rest, record, now, q.ts);
    }
  }

  lemma ResumesHere(es: seq<Entry>, i: nat, record: Bytes, base: Bytes -> seq<RangeTombstone>, ts: seq<RangeTombstone>)
    requires i < |es| && ResumesEverywhere(es, record, base, ts) && Shows(es[i], record, ts + MetIn(es[..i], record))
    ensures HideTheSame(es[i + 1..], record, ts + MetIn(es[..i + 1], record), base(es[i].key))
  {
    hide Shows, HideTheSame, MetIn;
  }

  // --- Cutting after one entry ---

  function TotalBytes(es: seq<Entry>): nat {
    if es == [] then 0 else EntryBytes(es[0]) + TotalBytes(es[1..])
  }

  lemma ReadUnfolds(es: seq<Entry>, record: Bytes, ts: seq<RangeTombstone>)
    requires es != []
    ensures var rest := ReadOn(es[1..], record, ts + TombstoneIn(es[0], record));
            && ReadOn(es, record, ts) == (if Shows(es[0], record, ts) then [es[0]] + rest else rest)
            && TotalBytes(ReadOn(es, record, ts)) == TotalBytes(rest) + (if Shows(es[0], record, ts) then EntryBytes(es[0]) else 0)
  {
    hide Shows, EntryBytes, TombstoneIn;
    var rest := ReadOn(es[1..], record, ts + TombstoneIn(es[0], record));
    assert ([es[0]] + rest)[1..] == rest && [] + rest == rest;
  }

  /** A page whose limits are out of reach takes everything. */
  lemma {:induction false} FillsEverything(es: seq<Entry>, record: Bytes, o: Options, p: Progress)
    requires o.resume.None? && !p.full && (o.itemLimit.Some? ==> |p.page| + |ReadOn(es, record, p.ts)| < o.itemLimit.value)
    requires p.bytes + TotalBytes(ReadOn(es, record, p.ts)) < o.pageSize
    ensures Fill(es, record, o, p).1 == [] && Fill(es, record, o, p).0.page == p.page + ReadOn(es, record, p.ts)
    decreases |es|
  {
    FillUnfolds(es, record, o, p);
    if es == [] {
      assert p.page + [] == p.page;
    } else {
      hide Shows, EntryBytes, Visit, ReadOn, TotalBytes, Fill, TombstoneIn;
      ReadUnfolds(es, record, p.ts);
      VisitFresh(es[0], record, o, p);
      var next := Visit(es[0], record, o, p);
      FillsEverything(es[1..], record, o, next);
      Regroup(p.page, [es[0]], ReadOn(es[1..], record, next.ts));
    }
  }

  /** A first page with as many items as the reading shows up to an entry stops right after it. */
  lemma {:induction false} CutsAfter(es: seq<Entry>, i: nat, record: Bytes, o: Options, p: Progress)
    requires o.resume.None? && !p.full && i < |es| && Shows(es[i], record, p.ts + MetIn(es[..i], record))
    requires o.itemLimit == Some(|p.page| + |ReadOn(es[..i + 1], record, p.ts)|)
    requires p.bytes + TotalBytes(ReadOn(es[..i + 1], record, p.ts)) < o.pageSize
    ensures var (q, rest) := Fill(es, record, o, p);
            rest == es[i + 1..] && q.page == p.page + ReadOn(es[..i + 1], record, p.ts) && q.page != [] && q.page[|q.page| - 1] == es[i]
    decreases i
  {
    hide Shows, EntryBytes, Visit, ReadOn, TotalBytes, Fill, TombstoneIn, MetIn;
    var head, t := es[..i + 1], TombstoneIn(es[0], record);
    var next := Visit(es[0], record, o, p);
    FillUnfolds(es, record, o, p);
    FillUnfolds(es[1..], record, o, next);
    VisitFresh(es[0], record, o, p);
    ReadUnfolds(head, record, p.ts);
    assert head[0] == es[0] && head[1..] == es[1..][..i];
    NothingMet(record);
    assert p.ts + [] == p.ts;
    if i == 0 {
      assert es[..0] == [] && es[1..][..0] == [];
      EmptyReading(record, p.ts + t);
    } else {
      assert head[1..] == es[1..][..i];
      MetSplit(es, 1, i, record);
      MetOneMore(es, 0, record);
      assert es[..0] == [] && [] + t == t;
      Regroup(p.ts, t, MetIn(es[1..][..i - 1], record));
      assert es[1..][i - 1] == es[i] && es[1..][i..] == es[i + 1..];
      Regroup(p.page, [es[0]], ReadOn(es[1..][..i], record, next.ts));
      StillSomething(es[1..], i - 1, record, next.ts);
      CutsAfter(es[1..], i - 1, record, o, next);
    }
  }

  lemma EmptyReading(record: Bytes, ts: seq<RangeTombstone>)
    ensures ReadOn([], record, ts) == [] && TotalBytes([]) == 0
  {
  }

  lemma StillSomething(es: seq<Entry>, i: nat, record: Bytes, ts: seq<RangeTombstone>)
    requires i < |es| && Shows(es[i], record, ts + MetIn(es[..i], record))
    ensures ReadOn(es[..i + 1], record, ts) != []
  {
    hide Shows, MetIn, TombstoneIn;
    ReadingSplits(es[..i + 1], i, record, ts);
    assert es[..i + 1][..i] == es[..i] && es[..i + 1][i..] == [es[i]];
  }

  /** The first page ends after entry `i`, the second one has no limit in reach. */
  function CutOnce(first: Limit, second: Limit): nat -> Limit {
    (n: nat) => if n == 0 then first else second
  }

  lemma {:induction false} CutTells(es: seq<Entry>, i: nat, record: Bytes, base: Bytes -> seq<RangeTombstone>, ts: seq<RangeTombstone>) returns (limits: nat -> Limit)
    requires KeysIncreasing(es) && i < |es| && Shows(es[i], record, ts + MetIn(es[..i], record))
    ensures ReadPages(es, record, limits, 0, base, ts) == ReadOn(es, record, ts) ==>
              HideTheSame(es[i + 1..], record, ts + MetIn(es[..i + 1], record), base(es[i].key))
  {
    hide Shows, ReadOn, Fill, MetIn, KeysIncreasing, HideTheSame, TotalBytes;
    var head, rest, again := es[..i + 1], es[i + 1..], base(es[i].key);
    var first := Limit(TotalBytes(ReadOn(head, record, ts)) + 1, Some(|ReadOn(head, record, ts)|));
    var second := Limit(TotalBytes(ReadOn(rest, record, again)) + 1, None);
    limits := CutOnce(first, second);
    assert limits(0) == first && limits(1) == second;
    CutsAfter(es, i, record, Options(first.pageSize, first.itemLimit, None), Progress(ts, [], 0, false));
    FillsEverything(rest, record, Options(second.pageSize, None, None), Progress(again, [], 0, false));
    ReadingSplits(es, i + 1, record, ts);
    TailIncreasing(es, i);
    SameReadingIff(rest, record, ts + MetIn(es[..i + 1], record), again);
    EmptyReading(record, again);
    EmptyReading(record, ts + MetIn(es[..i + 1], record));
    var ra, rb := ReadOn(head, record, ts), ReadOn(rest, record, again);
    assert [] + ra == ra && [] + rb == rb && ra + [] == ra;
    assert ReadPages(es, record, limits, 0, base, ts) == ra + rb;
    SamePrefix(ra, rb, ReadOn(rest, record, ts + MetIn(es[..i + 1], record)));
  }

  lemma SamePrefix(a: seq<Entry>, b: seq<Entry>, c: seq<Entry>)
    ensures a + b == a + c ==> b == c
  {
    assert (a + b)[|a|..] == b && (a + c)[|a|..] == c;
  }

  ghost predicate AllCutsAgree(es: seq<Entry>, record: Bytes, base: Bytes -> seq<RangeTombstone>, ts: seq<RangeTombstone>) {
    forall limits :: ReadPages(es, record, limits, 0, base, ts) == ReadOn(es, record, ts)
  }

  lemma HidesItself(es: seq<Entry>, record: Bytes, ts: seq<RangeTombstone>)
    ensures HideTheSame(es, record, ts, ts)
  {
  }

  /** Exactly when pages make up the whole reading, whatever limits each request sets. */
  lemma {:induction false} PagesAgreeIff(es: seq<Entry>, record: Bytes, base: Bytes -> seq<RangeTombstone>, ts: seq<RangeTombstone>)
    requires KeysIncreasing(es)
    ensures AllCutsAgree(es, record, base, ts) <==> ResumesEverywhere(es, record, base, ts)
  {
    hide ReadOn, ReadPages, Shows, MetIn, KeysIncreasing, HideTheSame;
    if ResumesEverywhere(es, record, base, ts) {
      HidesItself(es, record, ts);
      forall limits
        ensures ReadPages(es, record, limits, 0, base, ts) == ReadOn(es, record, ts)
      {
        ResumedPagesMakeWhole(es, record, limits, 0, base, ts, ts);
      }
    }
    if AllCutsAgree(es, record, base, ts) {
      forall i | 0 <= i < |es| && Shows(es[i], record, ts + MetIn(es[..i], record))
        ensures HideTheSame(es[i + 1..], record, ts + MetIn(es[..i + 1], record), base(es[i].key))
      {
        var limits := CutTells(es, i, record, base, ts);
        assert ReadPages(es, record, limits, 0, base, ts) == ReadOn(es, record, ts);
      }
    }
  }

  /** When pages begin with the tombstones of the memtables alone, resuming everywhere means that none
      is forgotten. */
  lemma {:induction false} EvenResumes(es: seq<Entry>, record: Bytes, ts: seq<RangeTombstone>, base: Bytes -> seq<RangeTombstone>)
    requires NoneForgotten(es, record, ts) && forall e :: e in es && IsValue(e, record) ==> base(e.key) == ts
    ensures ResumesEverywhere(es, record, base, ts)
  {
    hide Idle, MetIn, HideTheSame, CoversEntry;
    forall i | 0 <= i < |es| && Shows(es[i], record, ts + MetIn(es[..i], record))
      ensures HideTheSame(es[i + 1..], record, ts + MetIn(es[..i + 1], record), base(es[i].key))
    {
      assert es[i] in es && IsValue(es[i], record);
      assert [] + MetIn(es[..i], record) == MetIn(es[..i], record);
      assert [] + MetIn(es[..i + 1], record) == MetIn(es[..i + 1], record);
      IdleHidesNothing(es[i + 1..], record, ts, MetIn(es[..i + 1], record));
    }
  }

  lemma IdleHidesNothing(es: seq<Entry>, record: Bytes, ts: seq<RangeTombstone>, before: seq<RangeTombstone>)
    requires Idle(es, record, ts, before)
    ensures HideTheSame(es, record, ts + before, ts)
  {
    hide CoversEntry, IsValue, MetIn;
    forall j | 0 <= j < |es| && IsValue(es[j], record)
      ensures CoversEntry(ts + before + MetIn(es[..j], record), es[j]) <==> CoversEntry(ts + MetIn(es[..j], record), es[j])
    {
      CoversJoin(ts + before, MetIn(es[..j], record), es[j]);
      CoversJoin(ts, before, es[j]);
      CoversJoin(ts, MetIn(es[..j], record), es[j]);
    }
  }

  /** Only the tombstones a page resumes with matter, and only at values of the list. */
  lemma {:induction false} SamePages(es: seq<Entry>, record: Bytes, limits: nat -> Limit, n: nat, base: Bytes -> seq<RangeTombstone>, ts: seq<RangeTombstone>)
    requires forall e :: e in es && IsValue(e, record) ==> base(e.key) == ts
    ensures ReadPages(es, record, limits, n, base, ts) == ReadPages(es, record, limits, n, OnlyBuffered(ts), ts)
    decreases |es|
  {
    hide Fill, MetIn, ReadOn;
    var o, p := Options(limits(n).pageSize, limits(n).itemLimit, None), Progress(ts, [], 0, false);
    var i := FillTakesNext(es, record, o, p);
    var (q, rest) := Fill(es, record, o, p);
    if rest != [] {
      assert es[i] in es && IsValue(es[i], record) && forall e :: e in rest ==> e in es;
      SamePages(rest, record, limits, n + 1, base, ts);
    }
  }

  // --- Where a page stops ---

  lemma {:induction false} TotalBytesJoin(a: seq<Entry>, b: seq<Entry>)
    ensures TotalBytes(a + b) == TotalBytes(a) + TotalBytes(b)
  {
    hide EntryBytes;
    if a == [] {
      assert a + b == b;
    } else {
      assert (a + b)[1..] == a[1..] + b;
      TotalBytesJoin(a[1..], b);
    }
  }

  /** The page reached its size or its number of items. */
  predicate Reached(es: seq<Entry>, o: Options) {
    TotalBytes(es) >= o.pageSize || (o.itemLimit.Some? && |es| >= o.itemLimit.value)
  }

  /** The page so far: its bytes are counted, it was not full one entry earlier, and it is marked full
      exactly when it has reached a limit. */
  ghost predicate Counted(p: Progress, o: Options) {
    && p.bytes == TotalBytes(p.page)
    && (|p.page| >= 2 ==> !Reached(p.page[..|p.page| - 1], o))
    && (p.full <==> p.page != [] && Reached(p.page, o))
  }

  lemma VisitCounts(e: Entry, record: Bytes, o: Options, p: Progress)
    requires Counted(p, o) && !p.full
    ensures Counted(Visit(e, record, o, p), o)
  {
    var q := Visit(e, record, o, p);
    if q.page != p.page {
      TotalBytesJoin(p.page, [e]);
      assert [e][1..] == [] && TotalBytes([e]) == EntryBytes(e);
      assert q.page == p.page + [e] && q.page[..|p.page|] == p.page;
      hide TotalBytes, EntryBytes, Behind, Covers, RecordId, ItemKey;
    }
  }

  lemma {:induction false} FillCounts(es: seq<Entry>, record: Bytes, o: Options, p: Progress)
    requires Counted(p, o)
    ensures var (q, rest) := Fill(es, record, o, p); Counted(q, o) && (rest != [] ==> q.full)
    decreases |es|
  {
    hide Visit, Counted;
    if es != [] && !p.full {
      VisitCounts(es[0], record, o, p);
      FillCounts(es[1..], record, o, Visit(es[0], record, o, p));
    }
  }

  /** The limits of a page: it stops with the entry that reaches the page size or the item limit and not
      before, a page with a token has reached one of them, the token stands at its last entry, and the
      reported size is that of its entries. */
  lemma {:induction false} PageLimits(es: seq<Entry>, record: Bytes, o: Options, ts: seq<RangeTombstone>)
    ensures var (q, rest) := Fill(es, record, o, Progress(ts, [], 0, false)); var page := PageOf(q, rest);
            && page.bytes == TotalBytes(page.entries) == PayloadBytes(page.entries)
            && (|page.entries| >= 2 ==> !Reached(page.entries[..|page.entries| - 1], o))
            && (page.token.None? <==> rest == [])
            && (page.token.Some? ==>
                  && page.entries != [] && Reached(page.entries, o)
                  && var last, t := page.entries[|page.entries| - 1], page.token.value;
                     && t.key == last.key && t.seqno == last.seqno
                     && t.average == if page.bytes == 0 then None else Some(page.bytes / |page.entries| % 0x1_0000_0000))
  {
    hide Fill, TotalBytes, Reached;
    NothingCounted(o, ts);
    FillCounts(es, record, o, Progress(ts, [], 0, false));
    TotalIsPayload(Fill(es, record, o, Progress(ts, [], 0, false)).0.page);
  }

  /** Keys, values and metadata, added up. */
  function PayloadBytes(es: seq<Entry>): nat {
    if es == [] then 0 else |es[0].key| + |es[0].value| + |es[0].metadata| + PayloadBytes(es[1..])
  }

  lemma {:induction false} TotalIsPayload(es: seq<Entry>)
    ensures TotalBytes(es) == PayloadBytes(es)
  {
    if es != [] {
      TotalIsPayload(es[1..]);
    }
  }

  lemma NothingCounted(o: Options, ts: seq<RangeTombstone>)
    ensures Counted(Progress(ts, [], 0, false), o)
  {
  }
}
