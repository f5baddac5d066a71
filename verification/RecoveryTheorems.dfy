/** What recovery brings back after the first crash, and how a misplaced tracker entry loses a write. */
module RecoveryTheorems {
  import opened Wrappers
  import opened ByteStrings
  import opened CompositeKeys
  import opened Entries
  import opened Manifests
  import opened Compaction
  import opened Engine
  import opened EngineInvariant
  import opened EngineReads
  import opened EngineTheorems
  import opened WalEntries
  import opened WalSegments
  import opened WalReplay
  import opened DirtySegments
  import opened Recovery
  import opened RecoveryInvariant
  import opened Retention
  import T = Tiers
  import SortedRuns
  import RangeTombstones

  // --- What replay returns ---

  ghost predicate Increasing(es: seq<WalEntry>) {
    forall i, j :: 0 <= i < j < |es| ==> es[i].seqno < es[j].seqno
  }

  /** Every element is the appended entry of its sequence number, which is at least `low`. */
  ghost predicate FromLog(es: seq<WalEntry>, appended: seq<WalEntry>, low: nat) {
    forall w :: w in es ==> low <= w.seqno && 1 <= w.seqno <= |appended| && w == appended[w.seqno - 1]
  }

  lemma PartIsOrdered(appended: seq<WalEntry>, p: Part)
    requires Stamped(appended) && Holds(appended, p)
    ensures Increasing(p.es) && FromLog(p.es, appended, p.start)
    ensures forall w :: w in p.es ==> w.seqno < p.start + |p.es|
  {
    hide Encodable, NewKey;
    forall j | 0 <= j < |p.es|
      ensures p.es[j].seqno == p.start + j && p.es[j] == appended[p.start + j - 1]
    {
      assert StampedAt(appended[p.start - 1 + j], p.start - 1 + j);
    }
  }

  lemma JoinOrdered(a: seq<WalEntry>, b: seq<WalEntry>, bound: nat)
    requires Increasing(a) && Increasing(b)
    requires (forall w :: w in a ==> w.seqno < bound) && (forall w :: w in b ==> w.seqno >= bound)
    ensures Increasing(a + b)
  {
    forall i, j | 0 <= i < j < |a + b|
      ensures (a + b)[i].seqno < (a + b)[j].seqno
    {
      assert i < |a| ==> (a + b)[i] in a;
      assert j >= |a| ==> (a + b)[j] in b;
    }
  }

  lemma {:induction false} AllIsOrdered(appended: seq<WalEntry>, parts: seq<Part>)
    requires Stamped(appended) && Chained(appended, parts)
    ensures Increasing(All(parts)) && FromLog(All(parts), appended, parts[0].start)
    decreases |parts|
  {
    var p := parts[0];
    assert Holds(appended, p);
    PartIsOrdered(appended, p);
    if |parts| > 1 {
      TailChained(appended, parts);
      hide Chained, Stamped, Holds, Increasing;
      AllIsOrdered(appended, parts[1..]);
      assert parts[1..][0] in parts[1..];
      JoinOrdered(p.es, All(parts[1..]), p.start + |p.es|);
    } else {
      assert All(parts[1..]) == [];
      assert All(parts) == p.es;
    }
  }

  lemma {:induction false} FilterMembers(es: seq<WalEntry>, min: Option<nat>)
    ensures forall w :: w in Filter(es, min) <==> w in es && Wanted(w, min)
  {
    hide Wanted;
    if es != [] {
      var tail := es[1..];
      FilterMembers(tail, min);
      assert forall w :: w in es <==> w == es[0] || w in tail;
    }
  }

  lemma {:induction false} FilterKeepsOrder(es: seq<WalEntry>, min: Option<nat>)
    requires Increasing(es)
    ensures Increasing(Filter(es, min))
  {
    hide Wanted;
    if es != [] {
      var tail := es[1..];
      assert forall j :: 0 <= j < |tail| ==> tail[j] == es[j + 1];
      FilterKeepsOrder(tail, min);
      FilterMembers(tail, min);
      HeadFirst(es[0], Filter(tail, min));
    }
  }

  lemma HeadFirst(w: WalEntry, es: seq<WalEntry>)
    requires Increasing(es) && forall x :: x in es ==> w.seqno < x.seqno
    ensures Increasing([w] + es)
  {
    assert forall j :: 0 <= j < |es| ==> es[j] in es;
  }

  lemma {:induction false} AllMember(parts: seq<Part>, j: nat, w: WalEntry)
    requires j < |parts| && w in parts[j].es
    ensures w in All(parts)
    decreases |parts|
  {
    if j > 0 {
      assert parts[1..][j - 1] == parts[j];
      AllMember(parts[1..], j - 1, w);
    }
  }

  lemma LiveIsInAll(appended: seq<WalEntry>, parts: seq<Part>, i: nat)
    requires Chained(appended, parts) && Live(parts, i) && i < |appended|
    ensures appended[i] in All(parts)
  {
    var j :| 0 <= j < |parts| && In(parts[j], i);
    assert Holds(appended, parts[j]);
    assert parts[j].es[i - (parts[j].start - 1)] == appended[i];
    AllMember(parts, j, appended[i]);
  }

  /** The entries recovery replays: some of the log from the last flushed sequence on, in order, with
      everything after it. */
  ghost predicate Replayed(es: seq<WalEntry>, appended: seq<WalEntry>, flushed: nat) {
    && Increasing(es)
    && FromLog(es, appended, flushed)
    && forall i :: flushed <= i < |appended| ==> appended[i] in es
  }

  lemma TornParts(crc: Bytes -> nat, appended: seq<WalEntry>, parts: seq<Part>, torn: Bytes)
    requires Stamped(appended) && Chained(appended, parts) && Torn(crc, torn)
    ensures WalReplay.Shape(crc, Files(crc, parts, torn), WithTorn(parts, torn))
    ensures StartsBound(WithTorn(parts, torn))
  {
    var left, files := WithTorn(parts, torn), Files(crc, parts, torn);
    hide Torn, Encodable, FileOf;
    forall j | 0 <= j < |left|
      ensures PartOk(crc, left[j])
    {
      assert Holds(appended, parts[j]);
      EmptyTail(crc);
      forall i | 0 <= i < |left[j].es|
        ensures Encodable(left[j].es[i])
      {
        assert StampedAt(appended[parts[j].start - 1 + i], parts[j].start - 1 + i);
      }
    }
    forall j | 0 <= j < |left| - 1
      ensures EntriesBelow(left[j].es, left[j + 1].start)
    {
      assert Holds(appended, parts[j]);
      forall i | 0 <= i < |left[j].es|
        ensures left[j].es[i].seqno < left[j + 1].start
      {
        assert StampedAt(appended[parts[j].start - 1 + i], parts[j].start - 1 + i);
      }
    }
  }

  lemma EmptyTail(crc: Bytes -> nat)
    ensures Torn(crc, [])
  {
  }

  lemma {:induction false} SameEntries(a: seq<Part>, b: seq<Part>)
    requires |a| == |b| && forall i :: 0 <= i < |a| ==> a[i].es == b[i].es
    ensures All(a) == All(b)
  {
    if a != [] {
      SameEntries(a[1..], b[1..]);
    }
  }

  lemma {:induction false} InAllIsInPart(parts: seq<Part>, w: WalEntry) returns (j: nat)
    requires w in All(parts)
    ensures j < |parts| && w in parts[j].es
    decreases |parts|
  {
    if w in parts[0].es {
      j := 0;
    } else {
      var k := InAllIsInPart(parts[1..], w);
      j := k + 1;
    }
  }

  /** Segments hold an entry at its own place only. */
  lemma InAllIsLive(appended: seq<WalEntry>, parts: seq<Part>, i: nat)
    requires Stamped(appended) && Chained(appended, parts) && i < |appended|
    ensures appended[i] in All(parts) <==> Live(parts, i)
  {
    hide Encodable, NewKey, All;
    if appended[i] in All(parts) {
      var j := InAllIsInPart(parts, appended[i]);
      assert Holds(appended, parts[j]);
      var m :| 0 <= m < |parts[j].es| && parts[j].es[m] == appended[i];
      assert parts[j].es[m] == appended[parts[j].start - 1 + m];
      assert StampedAt(appended[i], i) && StampedAt(appended[parts[j].start - 1 + m], parts[j].start - 1 + m);
      assert In(parts[j], i);
    }
    if Live(parts, i) {
      LiveIsInAll(appended, parts, i);
    }
  }

  /** The write that set the flushed mark is replayed exactly if its segment is still there. */
  ghost predicate LastFlushedReplayed(s: Lifetime, es: seq<WalEntry>) {
    var flushed := s.engine.manifest.lastFlushed;
    1 <= flushed <= |s.appended| ==> (s.appended[flushed - 1] in es <==> Live(s.parts, flushed - 1))
  }

  lemma LastFlushedIsReplayed(s: Lifetime)
    requires Stamped(s.appended) && Chained(s.appended, s.parts)
    ensures LastFlushedReplayed(s, Filter(All(s.parts), Some(s.engine.manifest.lastFlushed)))
  {
    hide Encodable, NewKey, Filter, All, Chained, Live;
    var flushed := s.engine.manifest.lastFlushed;
    FilterMembers(All(s.parts), Some(flushed));
    if 1 <= flushed <= |s.appended| {
      InAllIsLive(s.appended, s.parts, flushed - 1);
      assert StampedAt(s.appended[flushed - 1], flushed - 1);
    }
  }

  lemma {:induction false} FilteredIsReplayed(s: Lifetime)
    requires Stamped(s.appended) && Chained(s.appended, s.parts) && Covered(s)
    ensures Replayed(Filter(All(s.parts), Some(s.engine.manifest.lastFlushed)), s.appended, s.engine.manifest.lastFlushed)
  {
    hide Encodable, NewKey, Filter, All;
    var flushed := s.engine.manifest.lastFlushed;
    AllIsOrdered(s.appended, s.parts);
    FilterMembers(All(s.parts), Some(flushed));
    FilterKeepsOrder(All(s.parts), Some(flushed));
    forall i | flushed <= i < |s.appended|
      ensures s.appended[i] in Filter(All(s.parts), Some(flushed))
    {
      assert Live(s.parts, i);
      LiveIsInAll(s.appended, s.parts, i);
      assert StampedAt(s.appended[i], i);
    }
  }

  lemma {:induction false} ReplayDelivers(cfg: EngineConfig, crc: Bytes -> nat, s: Lifetime, torn: Bytes) returns (es: seq<WalEntry>)
    requires CrcFits(crc) && Good(cfg, s) && Torn(crc, torn)
    ensures ReplayRest(crc, Files(crc, s.parts, torn), 0, Some(s.engine.manifest.lastFlushed)).Collected() == Ok(es)
    ensures Replayed(es, s.appended, s.engine.manifest.lastFlushed) && LastFlushedReplayed(s, es)
  {
    hide Inv, Stamped, Chained, Covered, Torn, Tracked, AllPinned, GenerationsMatch, LastFlushedReplayed, WalReplay.Shape, StartsBound, Files, ReplayRest, Filter, All;
    var flushed := s.engine.manifest.lastFlushed;
    var left := WithTorn(s.parts, torn);
    TornParts(crc, s.appended, s.parts, torn);
    SameEntries(left, s.parts);
    assert left[0..] == left;
    es := Filter(All(s.parts), Some(flushed));
    FilteredIsReplayed(s);
    LastFlushedIsReplayed(s);
    SameLength(crc, Files(crc, s.parts, torn), left);
    ReplayRestIsFilter(crc, Files(crc, s.parts, torn), left, 0, Some(flushed));
  }

  lemma SameLength(crc: Bytes -> nat, files: seq<Bytes>, parts: seq<Part>)
    requires WalReplay.Shape(crc, files, parts)
    ensures |files| == |parts|
  {
  }

  // --- What the memtable makes of it ---

  predicate HasKey(w: WalEntry, k: Bytes) {
    Join(w.record, w.item) == k
  }

  function LastFor(es: seq<WalEntry>, k: Bytes): (r: Option<WalEntry>)
    ensures r.Some? ==> r.value in es && HasKey(r.value, k)
    ensures r.None? ==> forall w :: w in es ==> !HasKey(w, k)
  {
    if es == [] then None
    else
      assert es == es[..|es| - 1] + [es[|es| - 1]];
      if HasKey(es[|es| - 1], k) then Some(es[|es| - 1]) else LastFor(es[..|es| - 1], k)
  }

  lemma {:induction false} LastForIsHighest(es: seq<WalEntry>, k: Bytes)
    requires Increasing(es)
    ensures LastFor(es, k).Some? ==> forall w :: w in es && HasKey(w, k) ==> w.seqno <= LastFor(es, k).value.seqno
  {
    if es != [] {
      var n := |es| - 1;
      assert es == es[..n] + [es[n]];
      LastForIsHighest(es[..n], k);
    }
  }

  /** The entry that stands for a log entry, whatever number it was given. */
  ghost predicate StandsFor(e: Option<Entry>, w: Option<WalEntry>) {
    && e.Some? == w.Some?
    && (e.Some? ==> e.value == EntryOf(w.value).(seqno := e.value.seqno))
  }

  ghost predicate Loaded(mt: Memtable, es: seq<WalEntry>) {
    && GoodMemtable(mt)
    && mt.tombstones == []
    && (forall x :: x in mt.entries ==> x.seqno < mt.nextSeqno)
    && (forall t :: t in mt.tokens ==> exists w :: w in es && w.token == t)
    && (forall w :: w in es && w.token != NO_TOKEN ==> w.token in mt.tokens)
    && forall k :: StandsFor(SortedRuns.Lookup(mt.entries, k), LastFor(es, k))
  }

  ghost predicate DistinctTokens(es: seq<WalEntry>) {
    forall i, j :: 0 <= i < j < |es| && es[i].token != NO_TOKEN ==> es[i].token != es[j].token
  }

  lemma NewestUnchanged(s: seq<Entry>, t: seq<Entry>, k: Bytes)
    requires StrictlySorted(t) && forall x: Entry :: x.key == k ==> (x in s <==> x in t)
    ensures Newest(s, k) == Newest(t, k)
  {
    var a, b := Newest(s, k), Newest(t, k);
    if a.Some? && b.Some? {
      LtIrreflexive(k);
      hide Newest;
      var i :| 0 <= i < |t| && t[i] == a.value;
      var j :| 0 <= j < |t| && t[j] == b.value;
      assert a.value.seqno == b.value.seqno;
      assert i == j;
    }
  }

  lemma LoadOne(mt: Memtable, es: seq<WalEntry>, w: WalEntry)
    requires Loaded(mt, es) && w.kind != RangeDelete
    ensures Loaded(InsertEntry(mt, EntryOf(w), w.token), es + [w])
  {
    var after := InsertEntry(mt, EntryOf(w), w.token);
    var numbered := EntryOf(w).(seqno := mt.nextSeqno);
    InsertTier(mt, EntryOf(w), w.token);
    forall x
      ensures x in after.entries <==> x in mt.entries || x == numbered
    {
      assert x in TierOf(after) <==> x in after.entries;
      assert x in TierOf(mt) <==> x in mt.entries;
    }
    forall k
      ensures StandsFor(SortedRuns.Lookup(after.entries, k), LastFor(es + [w], k))
    {
      assert StandsFor(SortedRuns.Lookup(mt.entries, k), LastFor(es, k));
      LookupAfter(mt.entries, after.entries, numbered, k);
      assert (es + [w])[..|es|] == es;
    }
    TokensAfter(mt, es, w);
  }

  lemma TokensAfter(mt: Memtable, es: seq<WalEntry>, w: WalEntry)
    requires forall t :: t in mt.tokens ==> exists x :: x in es && x.token == t
    ensures forall t :: t in InsertEntry(mt, EntryOf(w), w.token).tokens ==> exists x :: x in es + [w] && x.token == t
  {
    forall t | t in InsertEntry(mt, EntryOf(w), w.token).tokens
      ensures exists x :: x in es + [w] && x.token == t
    {
      if t in mt.tokens {
        var x :| x in es && x.token == t;
        assert x in es + [w];
      } else {
        assert w in es + [w];
      }
    }
  }

  /** Inserting the highest number yet shows the new entry for its key and changes no other key. */
  lemma LookupAfter(s: seq<Entry>, t: seq<Entry>, e: Entry, k: Bytes)
    requires StrictlySorted(s) && StrictlySorted(t) && (forall x :: x in t <==> x in s || x == e)
    requires forall x :: x in s ==> x.seqno < e.seqno
    ensures SortedRuns.Lookup(t, k) == if e.key == k then Some(e) else SortedRuns.Lookup(s, k)
  {
    SortedRuns.LookupIsNewest(s, k);
    SortedRuns.LookupIsNewest(t, k);
    if e.key != k {
      NewestUnchanged(s, t, k);
    }
  }

  lemma {:induction false} ReplayLoads(flushed: nat, es: seq<WalEntry>)
    requires forall w :: w in es ==> NewKey(w.record, w.item).Ok? && w.kind != RangeDelete
    requires DistinctTokens(es)
    ensures var r := ReplayInto(EmptyMemtable(flushed + 1), es); r.Ok? && Loaded(r.value, es)
  {
    hide InsertEntry, NewKey, Loaded, LastFor;
    if es == [] {
      NothingLoaded(flushed + 1);
    } else {
      var n := |es| - 1;
      var before, w := es[..n], es[n];
      assert es == before + [w];
      ReplayLoads(flushed, before);
      var mt := ReplayInto(EmptyMemtable(flushed + 1), before).value;
      FreshToken(mt, before, w);
      LoadOne(mt, before, w);
    }
  }

  lemma NothingLoaded(start: nat)
    ensures Loaded(EmptyMemtable(start), [])
  {
  }

  lemma FreshToken(mt: Memtable, es: seq<WalEntry>, w: WalEntry)
    requires Loaded(mt, es) && DistinctTokens(es + [w])
    ensures !KnownToken([mt], w.token)
  {
    hide GoodMemtable, StandsFor;
    var all := es + [w];
    forall i | 0 <= i < |es|
      ensures w.token != NO_TOKEN ==> es[i].token != w.token
    {
      assert all[i] == es[i] && all[|es|] == w;
    }
  }

  // --- The recovered read ---

  lemma ReplayedTokensDistinct(es: seq<WalEntry>, appended: seq<WalEntry>, flushed: nat)
    requires Replayed(es, appended, flushed) && DistinctTokens(appended)
    ensures DistinctTokens(es)
  {
    forall i, j | 0 <= i < j < |es| && es[i].token != NO_TOKEN
      ensures es[i].token != es[j].token
    {
      assert es[i] in es && es[j] in es;
      assert appended[es[i].seqno - 1].token != appended[es[j].seqno - 1].token;
    }
  }

  lemma ReplayedKeysParse(es: seq<WalEntry>, appended: seq<WalEntry>, flushed: nat)
    requires Replayed(es, appended, flushed) && Stamped(appended)
    ensures forall w :: w in es ==> NewKey(w.record, w.item).Ok? && w.kind != RangeDelete
  {
    hide NewKey;
    forall w | w in es
      ensures NewKey(w.record, w.item).Ok? && w.kind != RangeDelete
    {
      assert StampedAt(appended[w.seqno - 1], w.seqno - 1);
    }
  }

  lemma {:induction false} HighestReplayed(es: seq<WalEntry>, flushed: nat)
    ensures MaxReplayed(flushed, es) >= flushed && forall w :: w in es ==> w.seqno <= MaxReplayed(flushed, es)
    ensures MaxReplayed(flushed, es) == flushed || exists w :: w in es && w.seqno == MaxReplayed(flushed, es)
  {
    if es != [] {
      var n := |es| - 1;
      assert es == es[..n] + [es[n]];
      HighestReplayed(es[..n], flushed);
    }
  }

  lemma NextSequenceContinues(es: seq<WalEntry>, appended: seq<WalEntry>, flushed: nat)
    requires Replayed(es, appended, flushed) && Stamped(appended) && flushed <= |appended|
    ensures MaxReplayed(flushed, es) == |appended|
  {
    HighestReplayed(es, flushed);
    if flushed < |appended| {
      assert StampedAt(appended[|appended| - 1], |appended| - 1);
      assert appended[|appended| - 1] in es;
    }
  }

  lemma ReplayedPlace(es: seq<WalEntry>, appended: seq<WalEntry>, flushed: nat, w: WalEntry)
    requires Replayed(es, appended, flushed) && w in es
    ensures flushed <= w.seqno && 1 <= w.seqno <= |appended| && w == appended[w.seqno - 1]
  {
  }

  /** No later write to the key than its last replayed entry. */
  lemma LastReplayedIsLast(es: seq<WalEntry>, appended: seq<WalEntry>, flushed: nat, k: Bytes, i: nat)
    requires Replayed(es, appended, flushed) && Stamped(appended) && LastFor(es, k).Some?
    requires i < |appended| && HasKey(appended[i], k)
    ensures i < LastFor(es, k).value.seqno
  {
    hide Encodable, NewKey, LastFor;
    LastForIsHighest(es, k);
    ReplayedPlace(es, appended, flushed, LastFor(es, k).value);
    assert StampedAt(appended[i], i);
    assert i >= flushed ==> appended[i] in es;
  }

  /** The last replayed entry of a key is the last write to it. */
  lemma LastReplayedIsNewest(es: seq<WalEntry>, appended: seq<WalEntry>, flushed: nat, k: Bytes)
    requires Replayed(es, appended, flushed) && Stamped(appended) && LastFor(es, k).Some?
    ensures Newest(LogOf(appended), k) == Some(EntryOf(LastFor(es, k).value))
  {
    hide Replayed, Stamped, LastFor, Newest;
    var w := LastFor(es, k).value;
    ReplayedPlace(es, appended, flushed, w);
    forall i | 0 <= i < |appended| && HasKey(appended[i], k)
      ensures i <= w.seqno - 1
    {
      LastReplayedIsLast(es, appended, flushed, k, i);
    }
    SeqnoIsPlace(appended);
    HighestIsNewest(appended, w.seqno - 1, k);
  }

  lemma HighestIsNewest(appended: seq<WalEntry>, i: nat, k: Bytes)
    requires i < |appended| && HasKey(appended[i], k)
    requires forall j :: 0 <= j < |appended| ==> appended[j].seqno == j + 1
    requires forall j :: 0 <= j < |appended| && HasKey(appended[j], k) ==> j <= i
    ensures Newest(LogOf(appended), k) == Some(EntryOf(appended[i]))
  {
    hide Newest;
    var log := LogOf(appended);
    assert log[i] in log && log[i].key == k;
    var e := Newest(log, k).value;
    var j :| 0 <= j < |log| && log[j] == e;
    assert HasKey(appended[j], k);
  }

  lemma SeqnoIsPlace(appended: seq<WalEntry>)
    requires Stamped(appended)
    ensures forall i :: 0 <= i < |appended| ==> appended[i].seqno == i + 1
  {
    forall i | 0 <= i < |appended|
      ensures appended[i].seqno == i + 1
    {
      assert StampedAt(appended[i], i);
    }
  }

  lemma UnreplayedIsFlushed(es: seq<WalEntry>, appended: seq<WalEntry>, flushed: nat, k: Bytes, e: Entry)
    requires Replayed(es, appended, flushed) && Stamped(appended) && LastFor(es, k).None?
    requires e in LogOf(appended) && e.seqno > flushed
    ensures e.key != k
  {
    hide LastFor, Encodable, NewKey;
    var j :| 0 <= j < |appended| && LogOf(appended)[j] == e;
    assert StampedAt(appended[j], j);
    assert appended[j] in es;
    assert !HasKey(appended[j], k);
  }

  /** A key without replayed entries has none in a memtable either. */
  lemma BufferedIsReplayed(cfg: EngineConfig, s: Lifetime, es: seq<WalEntry>, k: Bytes)
    requires Good(cfg, s) && Replayed(es, s.appended, s.engine.manifest.lastFlushed) && LastFor(es, k).None?
    ensures !Buffered(s.engine.Memtables(), k)
  {
    hide LastFor, Replayed, Stamped, Chained, AllPinned, Covered, GenerationsMatch, GoodDisk, T.Ordered, T.Faithful, GoodMemtable, LogOf;
    var mts, log, flushed := s.engine.Memtables(), LogOf(s.appended), s.engine.manifest.lastFlushed;
    forall i, e | 0 <= i < |mts| && e in mts[i].entries
      ensures e.key != k
    {
      assert AllAbove(mts[i], flushed);
      OlderAreLogged(cfg, s.engine, log, i);
      UnreplayedIsFlushed(es, s.appended, flushed, k, e);
    }
  }

  /** The key of the write that set the flushed mark. */
  ghost predicate LastFlushedKey(s: Lifetime, k: Bytes) {
    var flushed := s.engine.manifest.lastFlushed;
    1 <= flushed <= |s.appended| && HasKey(s.appended[flushed - 1], k)
  }

  /** Only the last flushed write of a hidden key is replayed. */
  lemma StaleAndReplayed(cfg: EngineConfig, s: Lifetime, es: seq<WalEntry>, k: Bytes)
    requires Good(cfg, s) && Replayed(es, s.appended, s.engine.manifest.lastFlushed)
    requires Obscured(s.engine, k) && LastFor(es, k).Some?
    ensures LastFlushedKey(s, k) && LastFor(es, k).value == s.appended[s.engine.manifest.lastFlushed - 1]
  {
    hide Newest, LastFor, Stored, HiddenBySplit, Inv, Stamped, Chained, AllPinned, Covered, GenerationsMatch, Tracked, Replayed, LogOf;
    var e, log := s.engine, LogOf(s.appended);
    var w := LastFor(es, k).value;
    ReplayedPlace(es, s.appended, e.manifest.lastFlushed, w);
    LastReplayedIsNewest(es, s.appended, e.manifest.lastFlushed, k);
    DiskHoldsLast(cfg, e, log, k);
    ObscuredIsStored(e, k);
    DiskIsFlushed(cfg, e, log, EntryOf(w));
  }

  lemma ObscuredIsStored(s: State, k: Bytes)
    requires Obscured(s, k)
    ensures Newest(Stored(s.levels), k).Some?
  {
  }

  lemma DiskIsFlushed(cfg: EngineConfig, s: State, log: seq<Entry>, x: Entry)
    requires Inv(cfg, s, log) && x in Stored(s.levels)
    ensures x.seqno <= s.manifest.lastFlushed
  {
    hide GoodMemory, T.Ordered, T.Faithful, Stored;
    StoredMember(s.levels, x);
    var l :| 0 <= l < LEVELS && x in T.Versions(s.levels[l]);
    var t :| t in s.levels[l] && x in t.Contents();
    assert FlushedUpTo(s.levels, s.manifest.lastFlushed);
  }

  lemma EmptyCovers(mt: Memtable, record: Bytes, item: Bytes, seqno: nat)
    requires mt.tombstones == []
    ensures !ListCovers([mt], record, item, seqno)
  {
  }

  lemma LoadedGet(mt: Memtable, k: Bytes)
    requires mt.tombstones == []
    ensures ListGet([mt], k) == SortedRuns.Lookup(mt.entries, k)
  {
    assert ListGet([mt][1..], k) == None;
  }

  /** The read of a recovered engine, by cases on the replayed entries. */
  lemma RecoveredRead(cfg: EngineConfig, m: Manifest, mt: Memtable, es: seq<WalEntry>, next: nat, id: nat, k: Bytes)
    requires Loaded(mt, es)
    ensures var r := State(mt, [], [], m, m.levels, next, 0, id);
            var w := LastFor(es, k);
            ItemOf(PointRead(cfg, r, k)) == Served(if w.Some? then Some(EntryOf(w.value)) else Newest(Answers(cfg.compaction.sst, m.levels, k), k))
  {
    hide Newest, Answers, LastFor, GoodMemtable, ListGet, ListCovers, SortedRuns.Lookup;
    var r := State(mt, [], [], m, m.levels, next, 0, id);
    assert r.Memtables() == [mt];
    LoadedGet(mt, k);
    assert StandsFor(SortedRuns.Lookup(mt.entries, k), LastFor(es, k));
    var c := Candidate(cfg, r, k);
    if c.Some? {
      EmptyCovers(mt, RecordId(k), ItemKey(k), c.value.seqno);
    }
  }

  /** The last write to the key is hidden from reads by a block boundary; it is the write that set the
      flushed mark, and its segment is still there, so replay brings it back. */
  ghost predicate Resurfaces(s: Lifetime, k: Bytes) {
    Obscured(s.engine, k) && LastFlushedKey(s, k) && Live(s.parts, s.engine.manifest.lastFlushed - 1)
  }

  /** The read before the crash, by the same cases. */
  lemma ReadBefore(cfg: EngineConfig, s: Lifetime, es: seq<WalEntry>, k: Bytes)
    requires Good(cfg, s) && Replayed(es, s.appended, s.engine.manifest.lastFlushed) && LastFlushedReplayed(s, es)
    ensures var w := LastFor(es, k); var last := s.engine.manifest.lastFlushed;
            && ItemOf(PointRead(cfg, s.engine, k)) == Served(Candidate(cfg, s.engine, k))
            && (Resurfaces(s, k) <==> w.Some? && Obscured(s.engine, k))
            && (Resurfaces(s, k) ==> w == Some(s.appended[last - 1]))
            && (w.Some? && !Resurfaces(s, k) ==> ItemOf(PointRead(cfg, s.engine, k)) == Served(Some(EntryOf(w.value))))
            && (w.None? ==> Candidate(cfg, s.engine, k) == Newest(Answers(cfg.compaction.sst, s.engine.levels, k), k))
  {
    hide Newest, Answers, LastFor, ListGet, ListCovers, Inv, Stamped, Chained, AllPinned, Covered, GenerationsMatch, Tracked, Obscured, Live, Replayed;
    var e, log := s.engine, LogOf(s.appended);
    NoRangesLogged(s);
    ServesCandidate(cfg, e, log, k);
    if LastFor(es, k).Some? {
      if Obscured(e, k) {
        StaleAndReplayed(cfg, s, es, k);
      } else {
        LastReplayedIsNewest(es, s.appended, e.manifest.lastFlushed, k);
        ReadIsLastWrite(cfg, e, log, k);
        NoTombstonesBuffered(cfg, e, log, RecordId(k), ItemKey(k), LastFor(es, k).value.seqno);
      }
    } else {
      BufferedIsReplayed(cfg, s, es, k);
      NothingBuffered(e.Memtables(), k);
    }
  }

  lemma NoRangesLogged(s: Lifetime)
    requires Stamped(s.appended)
    ensures forall e :: e in LogOf(s.appended) ==> e.kind != RangeDelete
  {
    forall e | e in LogOf(s.appended)
      ensures e.kind != RangeDelete
    {
      var i :| 0 <= i < |s.appended| && LogOf(s.appended)[i] == e;
      assert StampedAt(s.appended[i], i);
    }
  }

  lemma LevelsRebuilt(cfg: EngineConfig, s: State, log: seq<Entry>)
    requires Inv(cfg, s, log)
    ensures RebuildLevels(s.manifest) == s.manifest.levels == s.levels
    ensures s.manifest.lastFlushed < s.nextSeqno
  {
    RebuildChangesNothing(cfg, s.manifest);
  }

  lemma {:induction false} RecoverWorks(cfg: EngineConfig, crc: Bytes -> nat, s: Lifetime, torn: Bytes, id: nat) returns (mt: Memtable, es: seq<WalEntry>)
    requires CrcFits(crc) && Good(cfg, s) && Torn(crc, torn) && DistinctTokens(s.appended)
    ensures Replayed(es, s.appended, s.engine.manifest.lastFlushed) && LastFlushedReplayed(s, es) && Loaded(mt, es)
    ensures Recover(crc, s.engine.manifest, Files(crc, s.parts, torn), id)
            == Ok(State(mt, [], [], s.engine.manifest, s.engine.levels, s.engine.nextSeqno, 0, id))
    ensures s.engine.levels == s.engine.manifest.levels
  {
    hide Inv, Stamped, Chained, AllPinned, Covered, GenerationsMatch, Tracked, Replayed, LastFlushedReplayed, Loaded, RebuildLevels, Files, ReplayRest, ReplayInto, MaxReplayed, Torn, DistinctTokens;
    var flushed := s.engine.manifest.lastFlushed;
    es := ReplayDelivers(cfg, crc, s, torn);
    ReplayedTokensDistinct(es, s.appended, flushed);
    ReplayedKeysParse(es, s.appended, flushed);
    ReplayLoads(flushed, es);
    mt := ReplayInto(EmptyMemtable(flushed + 1), es).value;
    LevelsRebuilt(cfg, s.engine, LogOf(s.appended));
    NextSequenceContinues(es, s.appended, flushed);
  }

  /** Recovery from a state in which no write is in flight. */
  lemma {:induction false} RecoveryAnswers(cfg: EngineConfig, crc: Bytes -> nat, s: Lifetime, torn: Bytes, id: nat, k: Bytes)
    requires CrcFits(crc) && Good(cfg, s) && Torn(crc, torn) && DistinctTokens(s.appended)
    ensures var r := Recover(crc, s.engine.manifest, Files(crc, s.parts, torn), id); var last := s.engine.manifest.lastFlushed;
            && r.Ok? && r.value.nextSeqno == s.engine.nextSeqno
            && (Resurfaces(s, k) ==> ItemOf(PointRead(cfg, r.value, k)) == Served(Some(EntryOf(s.appended[last - 1]))))
            && (ItemOf(PointRead(cfg, r.value, k)) == ItemOf(PointRead(cfg, s.engine, k)) <==>
                  (Resurfaces(s, k) ==> Served(Candidate(cfg, s.engine, k)) == Served(Some(EntryOf(s.appended[last - 1])))))
  {
    hide Good, Replayed, LastFlushedReplayed, Loaded, Recover, Files, PointRead, Obscured, Live, Candidate, Served, LastFor, DistinctTokens, Torn;
    var mt, es := RecoverWorks(cfg, crc, s, torn, id);
    RecoveredRead(cfg, s.engine.manifest, mt, es, s.engine.nextSeqno, id, k);
    ReadBefore(cfg, s, es, k);
  }

  /** First-crash recovery. After any run of puts and deletes, freezes, flushes, compactions and log
      cleanups, with a crash between any two steps and any torn tail: recovery succeeds, takes up the
      sequence where it was, and answers every point read as before, a write whose log append was
      done counting as done. The one exception is a last flushed write that reads could not see and
      that replay brings back: then the answer is that write, and it is the same as before exactly if
      the version that was found instead shows the same. */
  lemma {:induction false} FirstCrashRecovery(cfg: EngineConfig, namespace: Bytes, began: nat, events: seq<Event>,
                                             crc: Bytes -> nat, torn: Bytes, id: nat, k: Bytes)
    requires FittingRun(namespace, events) && WellPlaced(cfg, namespace, began, events) && CrcFits(crc) && Torn(crc, torn)
    requires DistinctTokens(After(cfg, namespace, began, events).appended)
    ensures var s := After(cfg, namespace, began, events);
            var c, last := Completed(s), s.engine.manifest.lastFlushed;
            var r := Recover(crc, s.engine.manifest, Files(crc, s.parts, torn), id);
            && r.Ok? && r.value.nextSeqno == c.engine.nextSeqno
            && (Resurfaces(c, k) ==> last >= 1 && ItemOf(PointRead(cfg, r.value, k)) == Served(Some(EntryOf(s.appended[last - 1]))))
            && (ItemOf(PointRead(cfg, r.value, k)) == ItemOf(PointRead(cfg, c.engine, k)) <==>
                  (Resurfaces(c, k) ==> Served(Candidate(cfg, c.engine, k)) == Served(Some(EntryOf(s.appended[last - 1])))))
  {
    hide Good, Recover, Files, PointRead, Obscured, Live, Candidate, Served, After, DistinctTokens, Torn, FittingRun, WellPlaced;
    RunKeepsGood(cfg, namespace, began, events);
    var s := After(cfg, namespace, began, events);
    if s.pc.Inserting? {
      AcceptLeaves(s.engine, s.pc.entry, s.pc.token);
    }
    RecoveryAnswers(cfg, crc, Completed(s), torn, id, k);
  }

  // --- Damaged logs ---

  /** A log whose last segment is damaged in the middle is not recovered in part: recovery fails. */
  lemma {:induction false} RecoverReportsDamage(crc: Bytes -> nat, m: Manifest, files: seq<Bytes>, parts: seq<Part>,
                                                h: Header, es: seq<WalEntry>, body: Bytes, stored: nat, rest: Bytes, id: nat)
    requires CrcFits(crc) && WalReplay.Shape(crc, files, parts) && h.start < U64 && AllEncodable(es)
    requires 0 < |body| < U32 && stored < U32 && stored != crc(body) && |rest| >= 8 && !AllZero(rest)
    ensures Recover(crc, m, files + [DamagedFile(crc, h, es, body, stored, rest)], id) == Err(CrcMismatch)
  {
    hide WalReplay.Shape, ReplayRest, DamagedFile, AllZero, ReplayInto, MaxReplayed;
    DamagedSegment(crc, h, es, body, stored, rest);
    LastDamageFails(crc, files, parts, DamagedFile(crc, h, es, body, stored, rest), es, 0, Some(m.lastFlushed));
  }

  // --- Tokens after recovery ---

  lemma {:induction false} ReplayedTokensKnown(mt: Memtable, es: seq<WalEntry>, w: WalEntry)
    requires ReplayInto(mt, es).Ok? && w in es && w.token != NO_TOKEN
    ensures w.token in ReplayInto(mt, es).value.tokens
    decreases |es|
  {
    hide NewKey, EntryOf, InsertEntry, KnownToken;
    var n := |es| - 1;
    assert es == es[..n] + [es[n]];
    if w in es[..n] {
      ReplayedTokensKnown(mt, es[..n], w);
    }
    var before := ReplayInto(mt, es[..n]).value;
    InsertKnows(before, EntryOf(es[n]), es[n].token);
    KnownAlone(before, es[n].token);
  }

  lemma InsertKnows(mt: Memtable, e: Entry, token: Token)
    ensures InsertEntry(mt, e, token).tokens == if token == NO_TOKEN then mt.tokens else mt.tokens + {token}
  {
  }

  lemma KnownAlone(mt: Memtable, token: Token)
    ensures KnownToken([mt], token) <==> token != NO_TOKEN && token in mt.tokens
  {
    assert [mt][0] == mt;
  }

  /** A write that the log holds twice, with one token, is replayed once. */
  lemma {:induction false} RepeatsAreSkipped(mt: Memtable, es: seq<WalEntry>, w: WalEntry, again: WalEntry)
    requires ReplayInto(mt, es).Ok? && w in es && w.token == again.token != NO_TOKEN && NewKey(again.record, again.item).Ok?
    ensures ReplayInto(mt, es + [again]) == ReplayInto(mt, es)
  {
    ReplayedTokensKnown(mt, es, w);
    var before := ReplayInto(mt, es).value;
    assert (es + [again])[..|es|] == es;
    assert [before][0] == before;
    hide InsertEntry, NewKey;
  }

  /** The replayed puts' tokens are known again: every token of a write that is in no table, and besides
      only that of the last flushed write. */
  lemma {:induction false} RecoveryKnowsTokens(cfg: EngineConfig, namespace: Bytes, began: nat, events: seq<Event>,
                                               crc: Bytes -> nat, torn: Bytes, id: nat, token: Token)
    requires FittingRun(namespace, events) && WellPlaced(cfg, namespace, began, events) && CrcFits(crc) && Torn(crc, torn)
    requires DistinctTokens(After(cfg, namespace, began, events).appended) && token != NO_TOKEN
    ensures var s := After(cfg, namespace, began, events); var last := s.engine.manifest.lastFlushed;
            var r := Recover(crc, s.engine.manifest, Files(crc, s.parts, torn), id);
            && r.Ok?
            && ((exists i :: last <= i < |s.appended| && s.appended[i].token == token) ==> KnownToken(r.value.Memtables(), token))
            && (KnownToken(r.value.Memtables(), token) ==> exists i :: last <= i + 1 && 0 <= i < |s.appended| && s.appended[i].token == token)
  {
    hide Good, Recover, Files, After, DistinctTokens, Torn, FittingRun, WellPlaced, Loaded, Replayed, LastFlushedReplayed;
    RunKeepsGood(cfg, namespace, began, events);
    var s := After(cfg, namespace, began, events);
    if s.pc.Inserting? {
      AcceptLeaves(s.engine, s.pc.entry, s.pc.token);
    }
    var mt, es := RecoverWorks(cfg, crc, Completed(s), torn, id);
    RecoveredTokens(mt, es, s.appended, s.engine.manifest.lastFlushed, token);
    var r := Recover(crc, s.engine.manifest, Files(crc, s.parts, torn), id).value;
    assert r.Memtables() == [mt];
  }

  lemma RecoveredTokens(mt: Memtable, es: seq<WalEntry>, appended: seq<WalEntry>, flushed: nat, token: Token)
    requires Loaded(mt, es) && Replayed(es, appended, flushed) && token != NO_TOKEN
    ensures (exists i :: flushed <= i < |appended| && appended[i].token == token) ==> KnownToken([mt], token)
    ensures KnownToken([mt], token) ==> exists i :: flushed <= i + 1 && 0 <= i < |appended| && appended[i].token == token
  {
    hide GoodMemtable, StandsFor, Increasing;
    if exists i :: flushed <= i < |appended| && appended[i].token == token {
      var i :| flushed <= i < |appended| && appended[i].token == token;
      assert appended[i] in es;
      assert [mt][0] == mt;
    }
    if KnownToken([mt], token) {
      var w :| w in es && w.token == token;
      assert w == appended[w.seqno - 1];
    }
  }

  // --- A hidden write that replay brings back ---

  function ResurfacingRun(v: Bytes, w: Bytes): (r: seq<Event>)
    ensures |r| == 6
  {
    var env := Env(false, false, 0);
    [Write(PutOp([1], [2], v, [], NO_TOKEN, env), false, false, 0), InsertNow,
     Write(PutOp([1], [2], w, [], NO_TOKEN, env), false, false, 0), InsertNow, FreezeNow, FlushNow(0)]
  }

  function LoggedVersion(v: Bytes, seqno: nat): WalEntry {
    WalEntry(seqno, Put, [], [1], [2], v, [], NO_TOKEN)
  }

  /** A write of the run and its insert. */
  lemma {:induction false} PutLogged(cfg: EngineConfig, s: Lifetime, v: Bytes)
    requires cfg.compaction.l0Stop > 0 && s.engine.manifest.levels == [[], [], [], []] && s.engine.active.nextSeqno == s.engine.nextSeqno
    requires s.pc.Ready? && |s.parts| == 1 && |s.appended| + 2 < U64 && s.engine.nextSeqno == |s.appended| + 1
    ensures var op := PutOp([1], [2], v, [], NO_TOKEN, Env(false, false, 0)); var n := |s.appended| + 1;
            var t := Advance(cfg, [], Advance(cfg, [], s, Write(op, false, false, 0)), InsertNow);
            && t.engine == Step(cfg, s.engine, op).0 && t.pc == Ready
            && t.engine.manifest == s.engine.manifest && t.engine.active.nextSeqno == t.engine.nextSeqno == s.engine.nextSeqno + 1
            && t.appended == s.appended + [LoggedVersion(v, n)]
            && t.parts == [s.parts[0].(es := s.parts[0].es + [LoggedVersion(v, n)])]
  {
    var op := PutOp([1], [2], v, [], NO_TOKEN, Env(false, false, 0));
    PutStep(cfg, s.engine, v);
    assert Join([1], [2]) == KEY;
    JoinSplit([1], [2]);
    assert Request(s.engine, op) == Ok((Version(v, s.engine.nextSeqno), NO_TOKEN));
    hide Step, InsertEntry, Record, Request;
    assert s.parts[0 := s.parts[0].(es := s.parts[0].es + [LoggedVersion(v, |s.appended| + 1)])]
           == [s.parts[0].(es := s.parts[0].es + [LoggedVersion(v, |s.appended| + 1)])];
  }

  lemma {:induction false} WriteAndInsert(cfg: EngineConfig, events: seq<Event>, e: Event)
    ensures After(cfg, [], 0, events + [e, InsertNow]) == Advance(cfg, [], Advance(cfg, [], After(cfg, [], 0, events), e), InsertNow)
  {
    hide After, Advance;
    AfterOneMore(cfg, [], 0, events, e);
    AfterOneMore(cfg, [], 0, events + [e], InsertNow);
    assert events + [e] + [InsertNow] == events + [e, InsertNow];
  }

  lemma {:induction false} BothLogged(cfg: EngineConfig, v: Bytes, w: Bytes)
    requires cfg.compaction.l0Stop > 0
    ensures var s := After(cfg, [], 0, ResurfacingRun(v, w)[..4]);
            && s.engine == Run(cfg, Overwrite(v, w)[..2]) && s.pc == Ready
            && s.appended == [LoggedVersion(v, 1), LoggedVersion(w, 2)]
            && s.parts == [Part(1, 1, 0, [LoggedVersion(v, 1), LoggedVersion(w, 2)], [])]
  {
    hide After, Run, History, Logged, Advance, Step, InsertEntry, Start;
    var r, ops := ResurfacingRun(v, w), Overwrite(v, w);
    assert r[..2] == [] + [r[0], InsertNow] && r[..4] == r[..2] + [r[2], InsertNow];
    WriteAndInsert(cfg, [], r[0]);
    WriteAndInsert(cfg, r[..2], r[2]);
    assert ops[..1] == [] + [ops[0]] && ops[..2] == ops[..1] + [ops[1]];
    RunSnoc(cfg, [], ops[0]);
    RunSnoc(cfg, ops[..1], ops[1]);
    Beginnings(cfg);
    PutStep(cfg, Init(), v);
    PutLogged(cfg, After(cfg, [], 0, []), v);
    PutLogged(cfg, After(cfg, [], 0, r[..2]), w);
    assert [] + [LoggedVersion(v, 1)] + [LoggedVersion(w, 2)] == [LoggedVersion(v, 1), LoggedVersion(w, 2)];
  }

  lemma Beginnings(cfg: EngineConfig)
    ensures Run(cfg, []) == Init() && After(cfg, [], 0, []) == Lifetime(Init(), [Part(1, 1, 0, [], [])], map[], Ready, [], [])
    ensures After(cfg, [], 0, []).engine == Init()
  {
  }

  lemma FreezeRuns(cfg: EngineConfig, s: Lifetime)
    requires s.pc.Ready? && s.engine.active.entries != [] && |s.engine.frozen| < cfg.maxFrozen
    ensures Advance(cfg, [], s, FreezeNow) == s.(engine := Freeze(cfg, s.engine).value)
    ensures Advance(cfg, [], s, FreezeNow).engine == Step(cfg, s.engine, FreezeOp).0
    ensures Advance(cfg, [], s, FreezeNow).engine.generations != []
  {
  }

  lemma FlushRuns(cfg: EngineConfig, s: Lifetime)
    requires s.pc.Ready? && s.engine.frozen != [] && s.engine.generations != [] && FlushOldest(cfg, s.engine, 0).1.Ok?
    ensures var t := Advance(cfg, [], s, FlushNow(0));
            t.pc.TableWritten? && t == s.(engine := FlushOldest(cfg, s.engine, 0).0, pc := t.pc)
  {
    hide FlushOldest;
  }

  lemma {:induction false} BothFlushed(cfg: EngineConfig, v: Bytes, w: Bytes)
    requires cfg.compaction.l0Stop > 0 && cfg.compaction.l0Trigger > 0 && cfg.maxFrozen > 0
    ensures var s := After(cfg, [], 0, ResurfacingRun(v, w));
            && s.engine == Run(cfg, Overwrite(v, w)) && s.engine.manifest.lastFlushed == 2 && s.pc.TableWritten?
            && s.appended == [LoggedVersion(v, 1), LoggedVersion(w, 2)]
            && s.parts == [Part(1, 1, 0, [LoggedVersion(v, 1), LoggedVersion(w, 2)], [])]
  {
    hide After, Run, History, FlushOldest, Advance, Step, ResurfacingRun, Overwrite, Freeze, MaxSeqno;
    var r, ops := ResurfacingRun(v, w), Overwrite(v, w);
    LastSteps(v, w);
    AfterOneMore(cfg, [], 0, r[..4], FreezeNow);
    AfterOneMore(cfg, [], 0, r[..5], FlushNow(0));
    RunSnoc(cfg, ops[..2], FreezeOp);
    RunSnoc(cfg, ops[..3], FlushOp(0));
    BothLogged(cfg, v, w);
    OverwriteBuffered(cfg, v, w);
    var s4, s5 := After(cfg, [], 0, r[..4]), After(cfg, [], 0, r[..5]);
    FreezeFirst(cfg, s4.engine);
    FreezeRuns(cfg, s4);
    var t := FlushFirst(cfg, s5.engine);
    FlushRuns(cfg, s5);
    HighestOfTwo(Version(w, 2), Version(v, 1));
  }

  lemma LastSteps(v: Bytes, w: Bytes)
    ensures var r := ResurfacingRun(v, w); r[..5] == r[..4] + [FreezeNow] && r == r[..5] + [FlushNow(0)]
    ensures var ops := Overwrite(v, w); |ops| == 4 && ops[..3] == ops[..2] + [FreezeOp] && ops == ops[..3] + [FlushOp(0)]
  {
  }

  lemma HighestOfTwo(a: Entry, b: Entry)
    requires a.seqno > b.seqno
    ensures MaxSeqno([a, b]) == a.seqno
  {
    assert [a, b][..1] == [a] && [a][..0] == [];
  }

  lemma {:induction false} ResurfacingIsOrderly(cfg: EngineConfig, v: Bytes, w: Bytes)
    requires FIXED_BODY + 2 + |v| < U32 && FIXED_BODY + 2 + |w| < U32
    ensures FittingRun([], ResurfacingRun(v, w)) && WellPlaced(cfg, [], 0, ResurfacingRun(v, w))
  {
    hide After, Admits;
  }

  /** Two puts of one key in two blocks, flushed, and a crash before the cleanup: the read returned the
      first value, and after recovery it returns the second. */
  lemma {:induction false} HiddenWriteResurfaces(cfg: EngineConfig, v: Bytes, w: Bytes, crc: Bytes -> nat, torn: Bytes, id: nat)
    requires cfg.compaction.l0Stop > 0 && cfg.compaction.l0Trigger > 0 && cfg.maxFrozen > 0 && cfg.compaction.sst.blockTarget <= 1
    requires CrcFits(crc) && Torn(crc, torn) && FIXED_BODY + 2 + |v| < U32 && FIXED_BODY + 2 + |w| < U32
    ensures var s := After(cfg, [], 0, ResurfacingRun(v, w));
            var r := Recover(crc, s.engine.manifest, Files(crc, s.parts, torn), id);
            && r.Ok? && ItemOf(PointRead(cfg, s.engine, KEY)) == Some(Item(v, []))
            && ItemOf(PointRead(cfg, r.value, KEY)) == Some(Item(w, []))
  {
    hide After, Run, History, Recover, Files, Torn, PointRead, ResurfacingRun, Overwrite, FittingRun, WellPlaced, Inv, Obscured;
    ResurfacingIsOrderly(cfg, v, w);
    BothFlushed(cfg, v, w);
    OverwriteReadsStale(cfg, v, w);
    var s := After(cfg, [], 0, ResurfacingRun(v, w));
    assert LastFlushedKey(s, KEY) by {
      assert Join([1], [2]) == KEY;
    }
    assert In(s.parts[0], 1) && Live(s.parts, 1);
    StaleIsObscured(cfg, v, w);
    assert EntryOf(LoggedVersion(w, 2)) == Version(w, 2);
    FirstCrashRecovery(cfg, [], 0, ResurfacingRun(v, w), crc, torn, id, KEY);
  }

  lemma StaleIsObscured(cfg: EngineConfig, v: Bytes, w: Bytes)
    requires PointRead(cfg, Run(cfg, Overwrite(v, w)), KEY) == Some(Version(v, 1))
    requires Newest(History(cfg, Overwrite(v, w)), KEY) == Some(Version(w, 2))
    ensures Obscured(Run(cfg, Overwrite(v, w)), KEY)
  {
    hide Run, History, Inv, PointRead, Newest, Overwrite, Obscured;
    RunKeeps(cfg, Overwrite(v, w));
    if !Obscured(Run(cfg, Overwrite(v, w)), KEY) {
      ReadIsLastWrite(cfg, Run(cfg, Overwrite(v, w)), History(cfg, Overwrite(v, w)), KEY);
    }
  }

  // --- Why tracker entries must name the right segment ---

  function SmallPut(record: byte): Op {
    PutOp([record], [], [7], [], NO_TOKEN, Env(false, false, 0))
  }

  function SmallEntry(record: byte, seqno: nat): Entry {
    Entry([record, SEPARATOR], [7], [], Put, seqno)
  }

  /** Two writes around a freeze, the second one filling its segment and recorded after the
      rotation; then the flush of the first and its cleanup. */
  function RacedRun(): (r: seq<Event>)
    ensures |r| == 8
  {
    [Write(SmallPut(1), false, false, 0), InsertNow, FreezeNow, Write(SmallPut(2), true, true, 0), InsertNow,
     FlushNow(0), MarkFlushed, RemoveOne(1)]
  }

  lemma SmallRequest(s: State, record: byte)
    requires record != SEPARATOR
    ensures Request(s, SmallPut(record)) == Ok((SmallEntry(record, s.nextSeqno), NO_TOKEN))
    ensures RecordId([record, SEPARATOR]) == [record] && ItemKey([record, SEPARATOR]) == []
  {
    assert Join([record], []) == [record, SEPARATOR];
    JoinSplit([record], []);
  }

  predicate Roomy(cfg: EngineConfig) {
    cfg.maxFrozen > 0 && cfg.compaction.l0Stop > 0
  }

  lemma FirstWrite(cfg: EngineConfig)
    requires Roomy(cfg)
    ensures var s := Advance(cfg, [], Advance(cfg, [], Start(0), RacedRun()[0]), InsertNow);
            && s.engine == Init().(nextSeqno := 2, active := Memtable([SmallEntry(1, 1)], [], {}, 2))
            && |s.parts| == 1 && s.parts[0].number == 1 && s.parts[0].start == 1 && |s.parts[0].es| == 1
            && s.dirty == map[1 := map[0 := 0]] && s.pc == Ready && |s.appended| == 1
  {
    SmallRequest(Init(), 1);
  }

  lemma SecondWrite(cfg: EngineConfig, s: Lifetime)
    requires Roomy(cfg) && |s.engine.manifest.levels[0]| == 0 && s.pc == Ready && |s.appended| == 1
    requires |s.parts| == 1 && s.parts[0].number == 1 && s.parts[0].start == 1 && |s.parts[0].es| == 1
    requires s.dirty == map[1 := map[0 := 0]] && s.engine.generation == 1
    ensures var t := Advance(cfg, [], Advance(cfg, [], s, RacedRun()[3]), InsertNow);
            && t.engine == Accept(s.engine, SmallEntry(2, s.engine.nextSeqno), NO_TOKEN)
            && |t.parts| == 2 && t.parts[0].number == 1 && t.parts[1] == Part(2, 3, 0, [], [])
            && t.dirty == map[1 := map[0 := 0], 2 := map[1 := 0]] && t.pc == Ready && |t.appended| == 2
  {
    SmallRequest(s.engine, 2);
    hide Accept, Request, KnownToken;
  }

  lemma CleanupRemoves(cfg: EngineConfig, s: Lifetime)
    requires s.pc == TableWritten(0) && s.dirty == map[1 := map[0 := 0], 2 := map[1 := 0]]
    requires |s.parts| == 2 && s.parts[0].number == 1 && s.parts[1] == Part(2, 3, 0, [], [])
    ensures var t := Advance(cfg, [], Advance(cfg, [], s, MarkFlushed), RemoveOne(1));
            t.parts == [Part(2, 3, 0, [], [])] && t.engine == s.engine && t.appended == s.appended
  {
    var d := s.dirty;
    assert d[1] - {0} == map[];
    assert d[2] - {0} == d[2];
    assert 1 in NewlyClean(d, 0);
    assert Flushed(d, 0) == map[1 := map[], 2 := map[1 := 0]];
    assert RemovePart(s.parts, 1) == s.parts[1..] == [s.parts[1]];
  }

  lemma {:induction false} FlushFirstWrite(cfg: EngineConfig, s: Lifetime, log: seq<Entry>)
    requires Inv(cfg, s.engine, log) && s.pc == Ready
    requires |s.engine.frozen| == 1 && s.engine.frozen[0].entries == [SmallEntry(1, 1)] && s.engine.generations == [0]
    ensures var t := Advance(cfg, [], s, FlushNow(0));
            t == s.(engine := t.engine, pc := TableWritten(0)) && t.engine.manifest.lastFlushed == 1
  {
    hide Inv, FlushOldest;
    FlushKeeps(cfg, s.engine, log, 0);
    FlushFacts(cfg, s.engine, log, 0);
    assert MaxSeqno([SmallEntry(1, 1)]) == 1;
  }

  /** The state after the first write and the freeze. */
  ghost predicate Frozen(cfg: EngineConfig, s: Lifetime) {
    && Inv(cfg, s.engine, LogOf(s.appended)) && s.pc == Ready && |s.appended| == 1
    && |s.engine.manifest.levels[0]| == 0 && s.engine.generation == 1
    && |s.engine.frozen| == 1 && s.engine.frozen[0].entries == [SmallEntry(1, 1)] && s.engine.generations == [0]
    && |s.parts| == 1 && s.parts[0].number == 1 && s.parts[0].start == 1 && |s.parts[0].es| == 1
    && s.dirty == map[1 := map[0 := 0]]
  }

  lemma {:induction false} FirstWriteFrozen(cfg: EngineConfig)
    requires Roomy(cfg)
    ensures Frozen(cfg, After(cfg, [], 0, RacedRun()[..3]))
  {
    hide After, Inv, Advance, WriteStep;
    var r := RacedRun();
    assert r[..2] == [] + [r[0], InsertNow] && r[..3] == r[..2] + [FreezeNow];
    WriteAndInsert(cfg, [], r[0]);
    AfterOneMore(cfg, [], 0, r[..2], FreezeNow);
    Beginnings(cfg);
    FirstWrite(cfg);
    FirstThreeInv(cfg);
    FreezeRuns(cfg, After(cfg, [], 0, r[..2]));
  }

  lemma FirstThreeInv(cfg: EngineConfig)
    ensures var s := Completed(After(cfg, [], 0, RacedRun()[..3])); Inv(cfg, s.engine, LogOf(s.appended))
  {
    hide After, Inv, Admits;
    assert FittingRun([], RacedRun()[..3]) && WellPlaced(cfg, [], 0, RacedRun()[..3]);
    RunKeepsGood(cfg, [], 0, RacedRun()[..3]);
  }

  lemma {:induction false} RaceLoses(cfg: EngineConfig, s: Lifetime)
    requires Roomy(cfg) && Frozen(cfg, s)
    ensures var s3 := Advance(cfg, [], Advance(cfg, [], s, RacedRun()[3]), InsertNow);
            var t := Advance(cfg, [], Advance(cfg, [], Advance(cfg, [], s3, FlushNow(0)), MarkFlushed), RemoveOne(1));
            t.engine.manifest.lastFlushed == 1 && |t.appended| == 2 && !Live(t.parts, 1)
  {
    hide Inv, Advance, RacedRun;
    SecondWrite(cfg, s);
    InvFacts(cfg, s.engine, LogOf(s.appended));
    AcceptKeeps(cfg, s.engine, LogOf(s.appended), SmallEntry(2, s.engine.nextSeqno), NO_TOKEN);
    var s3 := Advance(cfg, [], Advance(cfg, [], s, RacedRun()[3]), InsertNow);
    FlushFirstWrite(cfg, s3, LogOf(s.appended) + [SmallEntry(2, s.engine.nextSeqno)]);
    CleanupRemoves(cfg, Advance(cfg, [], s3, FlushNow(0)));
  }

  lemma InvFacts(cfg: EngineConfig, s: State, log: seq<Entry>)
    requires Inv(cfg, s, log)
    ensures s.active.nextSeqno == s.nextSeqno
  {
  }

  /** A tracker entry made after the rotation it raced with: the segment of an entry that is in no
      table is removed, and no live segment holds that entry. */
  lemma {:induction false} MisplacedRecordLosesAWrite(cfg: EngineConfig)
    requires Roomy(cfg)
    ensures var s := After(cfg, [], 0, RacedRun());
            s.engine.manifest.lastFlushed == 1 && |s.appended| == 2 && !Live(s.parts, 1)
  {
    var r := RacedRun();
    assert r[..4] == r[..3] + [r[3]] && r[..5] == r[..4] + [r[4]] && r[..6] == r[..5] + [r[5]] && r[..7] == r[..6] + [r[6]] && r == r[..7] + [r[7]];
    assert r[4] == InsertNow && r[5] == FlushNow(0) && r[6] == MarkFlushed && r[7] == RemoveOne(1);
    hide After, Advance, RacedRun, Frozen;
    AfterOneMore(cfg, [], 0, r[..3], r[3]);
    AfterOneMore(cfg, [], 0, r[..4], r[4]);
    AfterOneMore(cfg, [], 0, r[..5], r[5]);
    AfterOneMore(cfg, [], 0, r[..6], r[6]);
    AfterOneMore(cfg, [], 0, r[..7], r[7]);
    FirstWriteFrozen(cfg);
    RaceLoses(cfg, After(cfg, [], 0, r[..3]));
  }
}
