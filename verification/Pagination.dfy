/** Following page tokens (crates/flushdb-engine/src/read_path.rs and the paging loop of
    crates/flushdb-server/src/handlers/read.rs). */
module Pagination {
  import opened Wrappers
  import opened ByteStrings
  import opened CompositeKeys
  import opened Entries
  import opened RangeTombstones
  import opened MergeIteration
  import opened Engine
  import opened EngineInvariant
  import opened RangeReads
  import opened RangeReadTheorems
  import opened PageLists

  /** What a page may still return after the resume point. */
  function Ahead(es: seq<Entry>, resume: Option<PageToken>): seq<Entry> {
    if es == [] then [] else (if Behind(es[0], resume) then [] else [es[0]]) + Ahead(es[1..], resume)
  }

  ghost predicate NoRanges(es: seq<Entry>) {
    forall e :: e in es ==> e.kind != RangeDelete
  }

  // --- Lists in key order ---

  lemma {:induction false} AheadMembers(es: seq<Entry>, resume: Option<PageToken>)
    ensures forall e :: e in Ahead(es, resume) <==> e in es && !Behind(e, resume)
    ensures KeysIncreasing(es) ==> KeysIncreasing(Ahead(es, resume))
  {
    hide Behind, Lt;
    if es != [] {
      var tail := es[1..];
      assert forall j :: 0 <= j < |tail| ==> tail[j] == es[j + 1];
      AheadMembers(tail, resume);
      assert forall e :: e in es <==> e == es[0] || e in tail;
      var rest := Ahead(tail, resume);
      assert forall j :: 0 <= j < |rest| ==> rest[j] in rest;
    }
  }

  /** Lists in key order with the same members are the same list. */
  lemma {:induction false} IncreasingUnique(a: seq<Entry>, b: seq<Entry>)
    requires KeysIncreasing(a) && KeysIncreasing(b) && forall e :: e in a <==> e in b
    ensures a == b
    decreases |a|
  {
    LtIsStrictTotalOrder();
    hide Lt;
    assert b == [] || b[0] in b;
    if a != [] {
      assert a[0] in a;
      assert b != [];
      assert b[0] in b;
      assert a[0] == b[0] by {
        var i :| 0 <= i < |b| && b[i] == a[0];
        var j :| 0 <= j < |a| && a[j] == b[0];
      }
      TailMembers(a);
      TailMembers(b);
      IncreasingUnique(a[1..], b[1..]);
      assert a == [a[0]] + a[1..] && b == [b[0]] + b[1..];
    }
  }

  lemma TailMembers(a: seq<Entry>)
    requires KeysIncreasing(a) && a != []
    ensures KeysIncreasing(a[1..]) && forall e :: e in a[1..] <==> e in a && e != a[0]
  {
    LtIsStrictTotalOrder();
    hide Lt;
    assert forall j :: 0 <= j < |a[1..]| ==> a[1..][j] == a[j + 1];
    forall e
      ensures e in a[1..] <==> e in a && e != a[0]
    {
      if e in a[1..] {
        var j :| 0 <= j < |a[1..]| && a[1..][j] == e;
        assert Lt(a[0].key, a[j + 1].key);
      }
    }
  }

  /** In key order, what lies ahead of an entry of the list is what follows it. */
  lemma AheadOfEntry(es: seq<Entry>, i: nat, t: PageToken)
    requires KeysIncreasing(es) && i < |es| && t.key == es[i].key
    ensures Ahead(es, Some(t)) == es[i + 1..]
  {
    LtIsStrictTotalOrder();
    hide Lt, Ahead;
    AheadMembers(es, Some(t));
    var rest := es[i + 1..];
    assert forall j :: 0 <= j < |rest| ==> rest[j] == es[i + 1 + j];
    assert KeysIncreasing(rest);
    forall e
      ensures e in rest <==> e in Ahead(es, Some(t))
    {
      if e in es {
        var j :| 0 <= j < |es| && es[j] == e;
        assert j > i ==> e == rest[j - i - 1];
      }
    }
    IncreasingUnique(rest, Ahead(es, Some(t)));
  }

  lemma {:induction false} AllAhead(es: seq<Entry>, resume: Option<PageToken>)
    requires forall e :: e in es ==> !Behind(e, resume)
    ensures Ahead(es, resume) == es
  {
    hide Behind;
    if es != [] {
      assert es[0] in es && forall e :: e in es[1..] ==> e in es;
      AllAhead(es[1..], resume);
    }
  }

  /** Everything after an entry that is ahead is ahead. */
  lemma RestIsAhead(es: seq<Entry>, i: nat, resume: Option<PageToken>)
    requires KeysIncreasing(es) && i < |es| && !Behind(es[i], resume)
    ensures Ahead(es[i + 1..], resume) == es[i + 1..]
  {
    LtIsStrictTotalOrder();
    hide Lt;
    var rest := es[i + 1..];
    forall e | e in rest
      ensures !Behind(e, resume)
    {
      var j :| 0 <= j < |rest| && rest[j] == e;
      assert Lt(es[i].key, es[i + 1 + j].key);
    }
    hide Behind;
    AllAhead(rest, resume);
  }

  /** Beyond a token that lies ahead of another, the earlier one no longer matters. */
  lemma AheadTwice(es: seq<Entry>, resume: Option<PageToken>, t: PageToken)
    requires KeysIncreasing(es) && (resume.Some? ==> Le(resume.value.key, t.key))
    ensures Ahead(Ahead(es, resume), Some(t)) == Ahead(es, Some(t))
  {
    LtIsStrictTotalOrder();
    hide Lt, Ahead, KeysIncreasing;
    var once := Ahead(es, resume);
    AheadMembers(es, resume);
    AheadMembers(es, Some(t));
    AheadMembers(once, Some(t));
    IncreasingUnique(Ahead(once, Some(t)), Ahead(es, Some(t)));
  }

  /** A token at an entry ahead leaves what follows that entry. */
  lemma TokenLeaves(es: seq<Entry>, resume: Option<PageToken>, i: nat, t: PageToken)
    requires KeysIncreasing(es) && i < |Ahead(es, resume)| && t.key == Ahead(es, resume)[i].key
    ensures Ahead(es, Some(t)) == Ahead(es, resume)[i + 1..]
  {
    LtIsStrictTotalOrder();
    hide Lt, Ahead, KeysIncreasing;
    var once := Ahead(es, resume);
    AheadMembers(es, resume);
    assert once[i] in once;
    AheadTwice(es, resume, t);
    AheadOfEntry(once, i, t);
  }

  // --- One page ---

  /** With nothing behind the resume point, the resume point does not matter. */
  lemma {:induction false} NoneBehind(es: seq<Entry>, record: Bytes, o: Options, p: Progress)
    requires forall e :: e in es ==> !Behind(e, o.resume)
    ensures Fill(es, record, o, p) == Fill(es, record, o.(resume := None), p)
    decreases |es|
  {
    hide Behind, Shows, RecordId;
    if es != [] && !p.full {
      assert es[0] in es && forall e :: e in es[1..] ==> e in es;
      VisitSame(es[0], record, o, p);
      hide Visit;
      NoneBehind(es[1..], record, o, Visit(es[0], record, o, p));
    }
  }

  lemma VisitSame(e: Entry, record: Bytes, o: Options, p: Progress)
    requires !Behind(e, o.resume)
    ensures Visit(e, record, o, p) == Visit(e, record, o.(resume := None), p)
  {
  }

  /** The tombstones a resumed page collects from what it skips. */
  function CollectBehind(es: seq<Entry>, record: Bytes, resume: Option<PageToken>, ts: seq<RangeTombstone>): seq<RangeTombstone> {
    if es == [] then ts
    else CollectBehind(es[1..], record, resume, if Behind(es[0], resume) then Collect(ts, record, es[0]) else ts)
  }

  lemma SkipsOne(es: seq<Entry>, record: Bytes, o: Options, p: Progress)
    requires es != [] && !p.full && Behind(es[0], o.resume)
    ensures Fill(es, record, o, p) == Fill(es[1..], record, o, p.(ts := Collect(p.ts, record, es[0]))) && Ahead(es, o.resume) == Ahead(es[1..], o.resume)
  {
    hide Behind;
    assert [] + Ahead(es[1..], o.resume) == Ahead(es[1..], o.resume);
  }

  lemma {:induction false} NothingCollected(es: seq<Entry>, record: Bytes, resume: Option<PageToken>, ts: seq<RangeTombstone>)
    requires forall e :: e in es && Behind(e, resume) ==> e.kind != RangeDelete
    ensures CollectBehind(es, record, resume, ts) == ts
  {
    hide Behind;
    if es != [] {
      assert es[0] in es && forall e :: e in es[1..] ==> e in es;
      NothingCollected(es[1..], record, resume, ts);
    }
  }

  /** From an entry that lies ahead on, all do. */
  lemma AllFromHere(es: seq<Entry>, resume: Option<PageToken>)
    requires KeysIncreasing(es) && es != [] && !Behind(es[0], resume)
    ensures Ahead(es, resume) == es && forall e :: e in es ==> !Behind(e, resume)
  {
    hide Behind, Lt, KeysIncreasing;
    RestIsAhead(es, 0, resume);
    assert es == [es[0]] + es[1..];
    AheadMembers(es, resume);
  }

  /** A resumed page reads what lies ahead, with the tombstones it met behind. */
  lemma {:induction false} SkipsBehind(es: seq<Entry>, record: Bytes, o: Options, p: Progress)
    requires KeysIncreasing(es) && !p.full
    ensures Fill(es, record, o, p)
            == Fill(Ahead(es, o.resume), record, o.(resume := None), p.(ts := CollectBehind(es, record, o.resume, p.ts)))
    decreases |es|
  {
    hide Behind, Lt, KeysIncreasing, Visit, Collect;
    if es != [] {
      if Behind(es[0], o.resume) {
        hide Fill, Ahead;
        TailMembers(es);
        SkipsBehind(es[1..], record, o, p.(ts := Collect(p.ts, record, es[0])));
        SkipsOne(es, record, o, p);
      } else {
        AllFromHere(es, o.resume);
        NothingCollected(es, record, o.resume, p.ts);
        hide Fill, Ahead;
        NoneBehind(es, record, o, p);
      }
    }
  }

  /** Pages hold values that lie ahead. */
  lemma {:induction false} PageLiesAhead(es: seq<Entry>, record: Bytes, o: Options, p: Progress)
    ensures forall e :: e in Fill(es, record, o, p).0.page ==> e in p.page || (e in es && !Behind(e, o.resume) && IsValue(e, record))
    decreases |es|
  {
    hide Behind, RecordId, Full;
    if es != [] && !p.full {
      PageLiesAhead(es[1..], record, o, Visit(es[0], record, o, p));
      VisitAdds(es[0], record, o, p);
      hide Visit, IsValue;
      assert forall e :: e in es[1..] ==> e in es;
    }
  }

  lemma VisitAdds(e: Entry, record: Bytes, o: Options, p: Progress)
    ensures forall x :: x in Visit(e, record, o, p).page ==> x in p.page || (x == e && !Behind(e, o.resume) && IsValue(e, record))
  {
    hide Behind, RecordId, Full;
  }

  // --- Pages of a fixed store ---

  lemma BehindToken(e: Entry, t: PageToken)
    ensures !Behind(e, Some(t)) <==> Lt(t.key, e.key)
  {
    LtIsStrictTotalOrder();
  }

  lemma MergedAhead(cfg: EngineConfig, s: State, log: seq<Entry>, a: Bytes, b: Bytes, to: Bytes, t: PageToken, e: Entry)
    requires Inv(cfg, s, log) && Le(a, t.key) && Le(b, t.key) && Lt(t.key, e.key) && e in Merged(s, a, to)
    ensures e in Merged(s, b, to)
  {
    LtIsStrictTotalOrder();
    hide Inv, Merged, Lt, All, BestOffer, KeysIncreasing;
    MergedIsNewest(cfg, s, log, a, to);
    AllIsOffered(cfg, s, log, a, to, e);
    MergedIsBest(cfg, s, log, a, to, e);
    MergedIsBest(cfg, s, log, b, to, e);
  }

  lemma MergedKeysIncreasing(cfg: EngineConfig, s: State, log: seq<Entry>, from: Bytes, to: Bytes)
    requires Inv(cfg, s, log)
    ensures KeysIncreasing(Merged(s, from, to))
  {
    hide Inv, Merged;
    MergedIsNewest(cfg, s, log, from, to);
  }

  /** Past a token, it does not matter where the range was begun. */
  lemma AheadSame(cfg: EngineConfig, s: State, log: seq<Entry>, a: Bytes, b: Bytes, to: Bytes, t: PageToken)
    requires Inv(cfg, s, log) && Le(a, t.key) && Le(b, t.key)
    ensures Ahead(Merged(s, a, to), Some(t)) == Ahead(Merged(s, b, to), Some(t))
  {
    hide Inv, Merged, Le, Lt, Ahead, KeysIncreasing, Behind;
    var ea, eb := Merged(s, a, to), Merged(s, b, to);
    MergedKeysIncreasing(cfg, s, log, a, to);
    MergedKeysIncreasing(cfg, s, log, b, to);
    AheadMembers(ea, Some(t));
    AheadMembers(eb, Some(t));
    forall e
      ensures e in Ahead(ea, Some(t)) <==> e in Ahead(eb, Some(t))
    {
      BehindToken(e, t);
      if e in ea && Lt(t.key, e.key) {
        MergedAhead(cfg, s, log, a, b, to, t, e);
      }
      if e in eb && Lt(t.key, e.key) {
        MergedAhead(cfg, s, log, b, a, to, t, e);
      }
    }
    IncreasingUnique(Ahead(ea, Some(t)), Ahead(eb, Some(t)));
  }

  /** The unlimited read: the whole range in one reading. */
  function Unlimited(s: State, record: Bytes, from: Bytes, to: Bytes): seq<Entry> {
    ReadOn(Merged(s, from, to), record, TombstonesOf(s.Memtables()))
  }

  /** The tombstones a page begins with when it resumes at a key. */
  function Restart(s: State, record: Bytes, to: Bytes): Bytes -> seq<RangeTombstone> {
    (k: Bytes) => CollectBehind(Merged(s, k, to), record, Some(PageToken(k, 0, None)), TombstonesOf(s.Memtables()))
  }

  function BaseOf(s: State, record: Bytes, to: Bytes, resume: Option<PageToken>): seq<RangeTombstone> {
    if resume.Some? then Restart(s, record, to)(resume.value.key) else TombstonesOf(s.Memtables())
  }

  /** What page-wise reading still returns after a token, from request `n` on. */
  function Remaining(s: State, record: Bytes, from: Bytes, to: Bytes, limits: nat -> Limit, n: nat, resume: Option<PageToken>): seq<Entry> {
    ReadPages(Ahead(Merged(s, from, to), resume), record, limits, n, Restart(s, record, to), BaseOf(s, record, to, resume))
  }

  ghost predicate Follows(from: Bytes, resume: Option<PageToken>) {
    resume.Some? ==> Le(from, resume.value.key)
  }

  function BeginAt(from: Bytes, resume: Option<PageToken>): Bytes {
    if resume.Some? then resume.value.key else from
  }

  lemma MergedStarts(cfg: EngineConfig, s: State, log: seq<Entry>, from: Bytes, to: Bytes)
    requires Inv(cfg, s, log)
    ensures forall e :: e in Merged(s, from, to) ==> Le(from, e.key)
  {
    hide Inv, Merged, Lt, All, KeysIncreasing, Offered;
    MergedIsNewest(cfg, s, log, from, to);
    forall e | e in Merged(s, from, to)
      ensures Le(from, e.key)
    {
      AllIsOffered(cfg, s, log, from, to, e);
    }
  }

  /** What a resumed page has ahead is what the whole range has ahead. */
  lemma SameAhead(cfg: EngineConfig, s: State, log: seq<Entry>, from: Bytes, to: Bytes, resume: Option<PageToken>)
    requires Inv(cfg, s, log) && Follows(from, resume)
    ensures Ahead(Merged(s, BeginAt(from, resume), to), resume) == Ahead(Merged(s, from, to), resume)
  {
    hide Inv, Merged, Lt, Ahead;
    if resume.Some? {
      AheadSame(cfg, s, log, resume.value.key, from, to, resume.value);
    }
  }

  /** Every page with a token moves on, whatever the store holds: the token is at a value of the range
      that lies ahead. */
  lemma PageAdvances(cfg: EngineConfig, s: State, log: seq<Entry>, record: Bytes, from: Bytes, to: Bytes, o: Options) returns (i: nat)
    requires Inv(cfg, s, log) && Follows(from, o.resume)
    ensures var ahead := Ahead(Merged(s, from, to), o.resume);
            var (q, rest) := Fill(Merged(s, BeginAt(from, o.resume), to), record, o, Progress(TombstonesOf(s.Memtables()), [], 0, false));
            var token := PageOf(q, rest).token;
            token.Some? ==>
              && i < |ahead| && token.value.key == ahead[i].key && IsValue(ahead[i], record) && ahead[i] in Merged(s, from, to)
              && Follows(from, token) && Ahead(Merged(s, from, to), token) == ahead[i + 1..]
  {
    hide Inv, Merged, Lt, Ahead, Fill, KeysIncreasing, TombstonesOf, IsValue, Behind;
    var es, p := Merged(s, BeginAt(from, o.resume), to), Progress(TombstonesOf(s.Memtables()), [], 0, false);
    var (q, rest) := Fill(es, record, o, p);
    PageLiesAhead(es, record, o, p);
    AheadMembers(es, o.resume);
    SameAhead(cfg, s, log, from, to, o.resume);
    var ahead := Ahead(es, o.resume);
    i := 0;
    if PageOf(q, rest).token.Some? {
      var last := q.page[|q.page| - 1];
      assert last in q.page;
      i :| 0 <= i < |ahead| && ahead[i] == last;
      MergedKeysIncreasing(cfg, s, log, from, to);
      MergedStarts(cfg, s, log, from, to);
      AheadMembers(Merged(s, from, to), o.resume);
      TokenLeaves(Merged(s, from, to), o.resume, i, PageOf(q, rest).token.value);
    }
  }

  lemma {:induction false} SameBehind(es: seq<Entry>, record: Bytes, t: PageToken, u: PageToken, ts: seq<RangeTombstone>)
    requires t.key == u.key
    ensures CollectBehind(es, record, Some(t), ts) == CollectBehind(es, record, Some(u), ts)
  {
    hide Lt, Collect;
    if es != [] {
      SameBehind(es[1..], record, t, u, if Behind(es[0], Some(t)) then Collect(ts, record, es[0]) else ts);
    }
  }

  /** A page read with the token of the one before reads on in the same list. */
  lemma ResumedPage(cfg: EngineConfig, s: State, log: seq<Entry>, record: Bytes, from: Bytes, to: Bytes, o: Options)
    requires Inv(cfg, s, log) && Follows(from, o.resume)
    ensures Fill(Merged(s, BeginAt(from, o.resume), to), record, o, Progress(TombstonesOf(s.Memtables()), [], 0, false))
            == Fill(Ahead(Merged(s, from, to), o.resume), record, o.(resume := None), Progress(BaseOf(s, record, to, o.resume), [], 0, false))
  {
    hide Inv, Merged, Lt, Ahead, Fill, KeysIncreasing, TombstonesOf, Behind, CollectBehind;
    var es, ts := Merged(s, BeginAt(from, o.resume), to), TombstonesOf(s.Memtables());
    MergedKeysIncreasing(cfg, s, log, BeginAt(from, o.resume), to);
    SameAhead(cfg, s, log, from, to, o.resume);
    SkipsBehind(es, record, o, Progress(ts, [], 0, false));
    if o.resume.Some? {
      SameBehind(es, record, o.resume.value, PageToken(o.resume.value.key, 0, None), ts);
    } else {
      NoResume(es);
      NothingCollected(es, record, None, ts);
    }
  }

  lemma NoResume(es: seq<Entry>)
    ensures forall e :: e in es ==> !Behind(e, None)
  {
  }

  /** What is left after a token is the next page, whatever limits it is read with, and what is left
      after the token of that page. */
  lemma PageContinues(cfg: EngineConfig, s: State, log: seq<Entry>, record: Bytes, from: Bytes, to: Bytes, limits: nat -> Limit, n: nat, resume: Option<PageToken>)
    requires Inv(cfg, s, log) && Follows(from, resume)
    ensures var o := Options(limits(n).pageSize, limits(n).itemLimit, resume);
            var (q, rest) := Fill(Merged(s, BeginAt(from, resume), to), record, o, Progress(TombstonesOf(s.Memtables()), [], 0, false));
            var page := PageOf(q, rest);
            Remaining(s, record, from, to, limits, n, resume)
            == page.entries + (if page.token.None? then [] else Remaining(s, record, from, to, limits, n + 1, page.token))
  {
    hide Inv, Merged, Lt, Ahead, Fill, KeysIncreasing, TombstonesOf, ReadOn, IsValue, Restart;
    var o := Options(limits(n).pageSize, limits(n).itemLimit, resume);
    var base, ahead := BaseOf(s, record, to, resume), Ahead(Merged(s, from, to), resume);
    var p := Progress(base, [], 0, false);
    ResumedPage(cfg, s, log, record, from, to, o);
    var (q, rest) := Fill(ahead, record, o.(resume := None), p);
    var j := FillTakesNext(ahead, record, o.(resume := None), p);
    assert q.page + [] == q.page;
    if rest != [] {
      MergedKeysIncreasing(cfg, s, log, from, to);
      TokenLeaves(Merged(s, from, to), resume, j, PageOf(q, rest).token.value);
    }
  }

  /** The paging loop. On an unchanged store following the tokens ends, whatever the page size and item
      limit; the pages put together are the page-wise reading of the range, and all of the unlimited
      read when every page resumes with tombstones that hide what the whole reading hides. */
  method ScanRange(ghost cfg: EngineConfig, s: State, ghost log: seq<Entry>, record: Bytes, start: Option<Bytes>, end: Option<Bytes>,
                   pageSize: nat, itemLimit: Option<nat>) returns (r: Result<seq<seq<Entry>>>)
    requires Inv(cfg, s, log)
    ensures r.Ok? <==> StartKey(record, start, None).Ok? && EndKey(record, end).Ok?
    ensures r.Ok? ==> forall i :: 0 <= i < |r.value| ==> r.value[i] != []
    ensures r.Ok? ==>
              var from, to := StartKey(record, start, None).value, EndKey(record, end).value;
              && Flatten(r.value) == Remaining(s, record, from, to, Always(Limit(pageSize, itemLimit)), 0, None)
              && (Resumes(s, record, from, to) ==> Flatten(r.value) == Unlimited(s, record, from, to))
  {
    hide Inv, Merged, Fill, PageOf, TombstonesOf, Remaining, Unlimited, Ahead, IsValue, Resumes, Follows, Lt;
    var from :- StartKey(record, start, None);
    var to :- EndKey(record, end);
    hide StartKey, EndKey;
    ghost var limits := Always(Limit(pageSize, itemLimit));
    ghost var total, n := Remaining(s, record, from, to, limits, 0, None), 0;
    var pages, resume, more := [], None, true;
    Beginning(from, total);
    while more
      invariant Follows(from, resume)
      invariant Flatten(pages) + (if more then Remaining(s, record, from, to, limits, n, resume) else []) == total
      invariant forall i :: 0 <= i < |pages| ==> pages[i] != []
      decreases more, |Ahead(Merged(s, from, to), resume)|
    {
      var o := Options(pageSize, itemLimit, resume);
      ghost var i := PageAdvances(cfg, s, log, record, from, to, o);
      PageContinues(cfg, s, log, record, from, to, limits, n, resume);
      ReadsFrom(s, record, start, end, from, to, o);
      var page := RangeRead(s, record, start, end, o).value;
      ghost var left := if page.token.None? then [] else Remaining(s, record, from, to, limits, n + 1, page.token);
      Regroup(Flatten(pages), page.entries, left);
      if page.entries != [] {
        FlattenOneMore(pages, page.entries);
        pages := pages + [page.entries];
      } else {
        assert Flatten(pages) + page.entries == Flatten(pages);
      }
      resume, more, n := page.token, page.token.Some?, n + 1;
    }
    assert Flatten(pages) + [] == Flatten(pages);
    PaginationInvisibleIff(cfg, s, log, record, from, to);
    assert Resumes(s, record, from, to) ==> total == Unlimited(s, record, from, to);
    return Ok(pages);
  }

  lemma Beginning(from: Bytes, total: seq<Entry>)
    ensures Follows(from, None) && Flatten<Entry>([]) + total == total
  {
  }

  lemma NothingBehind(es: seq<Entry>)
    ensures Ahead(es, None) == es
  {
    AllAhead(es, None);
  }

  ghost predicate PagesAlwaysWhole(s: State, record: Bytes, from: Bytes, to: Bytes) {
    forall limits :: Remaining(s, record, from, to, limits, 0, None) == Unlimited(s, record, from, to)
  }

  /** Wherever the unlimited read shows an item, a page that resumes there hides of the later items what
      the unlimited read hides: the flushed range deletes met before hide nothing any more, and none is
      met at the restart that the unlimited read did not count. */
  ghost predicate Resumes(s: State, record: Bytes, from: Bytes, to: Bytes) {
    ResumesEverywhere(Merged(s, from, to), record, Restart(s, record, to), TombstonesOf(s.Memtables()))
  }

  /** Exactly when pagination is invisible: the pages put together are the unlimited read, whatever
      limits each request sets, if and only if the read can resume after every item it shows. */
  lemma {:induction false} PaginationInvisibleIff(cfg: EngineConfig, s: State, log: seq<Entry>, record: Bytes, from: Bytes, to: Bytes)
    requires Inv(cfg, s, log)
    ensures PagesAlwaysWhole(s, record, from, to) <==> Resumes(s, record, from, to)
  {
    hide Inv, Merged, TombstonesOf, ReadPages, ReadOn, ResumesEverywhere, KeysIncreasing, Ahead, Restart;
    var ts, es := TombstonesOf(s.Memtables()), Merged(s, from, to);
    NothingBehind(es);
    MergedKeysIncreasing(cfg, s, log, from, to);
    PagesAgreeIff(es, record, Restart(s, record, to), ts);
    forall limits
      ensures Remaining(s, record, from, to, limits, 0, None) == ReadPages(es, record, limits, 0, Restart(s, record, to), ts)
    {
    }
    if PagesAlwaysWhole(s, record, from, to) {
      forall limits
        ensures ReadPages(es, record, limits, 0, Restart(s, record, to), ts) == ReadOn(es, record, ts)
      {
        assert Remaining(s, record, from, to, limits, 0, None) == Unlimited(s, record, from, to);
      }
    }
  }

  lemma ReadsFrom(s: State, record: Bytes, start: Option<Bytes>, end: Option<Bytes>, from: Bytes, to: Bytes, o: Options)
    requires StartKey(record, start, None) == Ok(from) && EndKey(record, end) == Ok(to)
    ensures var (q, rest) := Fill(Merged(s, BeginAt(from, o.resume), to), record, o, Progress(TombstonesOf(s.Memtables()), [], 0, false));
            RangeRead(s, record, start, end, o) == Ok(PageOf(q, rest))
  {
    hide Merged, Fill, PageOf, TombstonesOf, EndKey, NewKey;
  }

  // --- Clean restarts ---

  /** A range begun at the key does not meet a range delete there. */
  ghost predicate CleanAt(s: State, k: Bytes, to: Bytes) {
    forall x :: x in Merged(s, k, to) && x.key == k ==> x.kind != RangeDelete
  }

  /** A range begun again at one of its values meets no range delete at that key. This can fail only
      for a key that carries both, with versions in two blocks of an L0 table. */
  ghost predicate CleanRestarts(s: State, record: Bytes, from: Bytes, to: Bytes) {
    forall e :: e in Merged(s, from, to) && IsValue(e, record) ==> CleanAt(s, e.key, to)
  }

  lemma CleanBase(cfg: EngineConfig, s: State, log: seq<Entry>, record: Bytes, k: Bytes, to: Bytes)
    requires Inv(cfg, s, log) && CleanAt(s, k, to)
    ensures Restart(s, record, to)(k) == TombstonesOf(s.Memtables())
  {
    LtIsStrictTotalOrder();
    hide Inv, Merged, Lt, TombstonesOf, CollectBehind;
    MergedStarts(cfg, s, log, k, to);
    NothingCollected(Merged(s, k, to), record, Some(PageToken(k, 0, None)), TombstonesOf(s.Memtables()));
  }

  lemma CleanBases(cfg: EngineConfig, s: State, log: seq<Entry>, record: Bytes, from: Bytes, to: Bytes)
    requires Inv(cfg, s, log) && CleanRestarts(s, record, from, to)
    ensures forall e :: e in Merged(s, from, to) && IsValue(e, record) ==> Restart(s, record, to)(e.key) == TombstonesOf(s.Memtables())
  {
    hide Inv, Merged, TombstonesOf, Restart, CleanAt, IsValue;
    forall e | e in Merged(s, from, to) && IsValue(e, record)
      ensures Restart(s, record, to)(e.key) == TombstonesOf(s.Memtables())
    {
      CleanBase(cfg, s, log, record, e.key, to);
    }
  }

  /** With clean restarts and one limit for all requests, pagination is invisible if and only if no
      flushed range delete met before an item that is shown still hides a later one; pages of one item
      each tell. */
  lemma {:induction false} EvenPaginationIff(cfg: EngineConfig, s: State, log: seq<Entry>, record: Bytes, from: Bytes, to: Bytes, limit: Limit)
    requires Inv(cfg, s, log) && CleanRestarts(s, record, from, to)
    ensures var forgets := !NoneForgotten(Merged(s, from, to), record, TombstonesOf(s.Memtables()));
            && (!forgets ==> Resumes(s, record, from, to))
            && (forgets <==> Remaining(s, record, from, to, Always(Limit(limit.pageSize, Some(1))), 0, None) != Unlimited(s, record, from, to))
  {
    hide Inv, Merged, TombstonesOf, ReadPages, ReadOn, NoneForgotten, KeysIncreasing, Ahead, Restart, CleanRestarts, ResumesEverywhere;
    var ts, es := TombstonesOf(s.Memtables()), Merged(s, from, to);
    NothingBehind(es);
    MergedKeysIncreasing(cfg, s, log, from, to);
    CleanBases(cfg, s, log, record, from, to);
    SamePages(es, record, Always(Limit(limit.pageSize, Some(1))), 0, Restart(s, record, to), ts);
    EvenPagesAgreeIff(es, record, limit, ts);
    if NoneForgotten(es, record, ts) {
      EvenResumes(es, record, ts, Restart(s, record, to));
    }
  }

  // --- Ranges that no range delete reaches ---

  /** No range-delete entry lies in the scanned range. */
  ghost predicate RangesApart(log: seq<Entry>, from: Bytes, to: Bytes) {
    forall e :: e in log && e.kind == RangeDelete ==> !Within(e.key, from, to)
  }

  lemma MergedHasNoRanges(cfg: EngineConfig, s: State, log: seq<Entry>, from: Bytes, start: Bytes, to: Bytes)
    requires Inv(cfg, s, log) && RangesApart(log, from, to) && Le(from, start)
    ensures NoRanges(Merged(s, start, to)) && forall e :: e in Merged(s, start, to) ==> Le(start, e.key)
  {
    LtIsStrictTotalOrder();
    hide Inv, Merged, Lt, All, KeysIncreasing, Offered;
    MergedIsNewest(cfg, s, log, start, to);
    forall e | e in Merged(s, start, to)
      ensures e.kind != RangeDelete && Le(start, e.key)
    {
      AllIsOffered(cfg, s, log, start, to, e);
      OfferedIsLogged(cfg, s, log, e);
    }
  }

  lemma {:induction false} NothingMetIn(es: seq<Entry>, record: Bytes)
    requires NoRanges(es)
    ensures MetIn(es, record) == []
  {
    if es != [] {
      assert es[0] in es && forall e :: e in es[1..] ==> e in es;
      hide RecordId, ItemKey;
      NothingMetIn(es[1..], record);
    }
  }

  lemma NoRangesNoneForgotten(es: seq<Entry>, record: Bytes, ts: seq<RangeTombstone>)
    requires NoRanges(es)
    ensures NoneForgotten(es, record, ts)
  {
    hide Shows, Idle, MetIn, TombstoneIn;
    forall i | 0 <= i < |es| && Shows(es[i], record, ts + ([] + MetIn(es[..i], record)))
      ensures Idle(es[i + 1..], record, ts, [] + MetIn(es[..i + 1], record))
    {
      assert forall e :: e in es[..i + 1] ==> e in es;
      NothingMetIn(es[..i + 1], record);
      assert [] + MetIn(es[..i + 1], record) == [];
      AlwaysIdle(es[i + 1..], record, ts);
    }
  }

  /** Without range-delete entries in the range, a read can resume everywhere. */
  lemma ApartIsInvisible(cfg: EngineConfig, s: State, log: seq<Entry>, record: Bytes, from: Bytes, to: Bytes)
    requires Inv(cfg, s, log) && RangesApart(log, from, to)
    ensures Resumes(s, record, from, to)
  {
    LtIsStrictTotalOrder();
    hide Inv, Merged, Lt, RangesApart, NoneForgotten, TombstonesOf, IsValue, Resumes;
    MergedHasNoRanges(cfg, s, log, from, from, to);
    NoRangesNoneForgotten(Merged(s, from, to), record, TombstonesOf(s.Memtables()));
    forall e | e in Merged(s, from, to)
      ensures CleanAt(s, e.key, to)
    {
      MergedHasNoRanges(cfg, s, log, from, e.key, to);
    }
    EvenPaginationIff(cfg, s, log, record, from, to, Limit(0, None));
  }
}
