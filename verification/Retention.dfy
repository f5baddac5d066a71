/** Exactly when log cleanup can lose a write (crates/flushdb-wal/src/wal_manager.rs): a tracker entry
    in the wrong segment is harmless unless the segment that holds the write is recorded for other
    generations only. */
module Retention {
  import opened Wrappers
  import opened ByteStrings
  import opened Entries
  import opened Engine
  import opened EngineInvariant
  import opened WalEntries
  import opened WalReplay
  import opened DirtySegments
  import opened Recovery
  import opened RecoveryInvariant

  predicate WriteFree(events: seq<Event>) {
    forall i :: 0 <= i < |events| ==> !events[i].Write?
  }

  /** However the engine goes on without further writes, every entry that is in no table stays in a
      live segment. */
  ghost predicate NeverLoses(cfg: EngineConfig, namespace: Bytes, began: nat, events: seq<Event>) {
    forall more :: WriteFree(more) ==> Covered(After(cfg, namespace, began, events + more))
  }

  lemma AfterOneMore(cfg: EngineConfig, namespace: Bytes, began: nat, events: seq<Event>, e: Event)
    ensures After(cfg, namespace, began, events + [e]) == Advance(cfg, namespace, After(cfg, namespace, began, events), e)
  {
    assert (events + [e])[..|events|] == events;
  }

  // --- An exposed entry ---

  /** Entry `i` is in the current memtable; its segment is not the current one and is recorded, but
      only for other generations. */
  ghost predicate Exposed(s: Lifetime, segment: nat, i: nat) {
    && i < |s.generations| && s.generations[i] == s.engine.generation
    && Generations(s.dirty, segment) != map[] && s.engine.generation !in Generations(s.dirty, segment)
    && exists j :: 0 <= j < |s.parts| - 1 && s.parts[j].number == segment && In(s.parts[j], i)
  }

  lemma MisplacedIsExposed(cfg: EngineConfig, namespace: Bytes, s: Lifetime, e: Event)
    requires Sound(cfg, s) && FittingEvent(namespace, e) && Misplaces(cfg, s, e)
    ensures var t := Completed(Advance(cfg, namespace, s, e));
            t.pc.Ready? && Exposed(t, s.parts[|s.parts| - 1].number, |s.appended|)
  {
    SoundFacts(cfg, s);
    hide Sound, Admits, WriteStep, Completed, Fits, StampedAt;
    var entry, token, w := WriteIsAppend(cfg, namespace, s, e.op, e.rotate, e.raced, e.now);
    var t := Appended(s, entry, token, w, e.rotate, Recorded(s, e.rotate, e.raced), e.now);
    AcceptLeaves(s.engine, entry, token);
    hide Accept;
    var n := |s.parts| - 1;
    assert t.parts[n] == s.parts[n].(es := s.parts[n].es + [w]);
    assert In(t.parts[n], |s.appended|);
  }

  lemma SoundFacts(cfg: EngineConfig, s: Lifetime)
    requires Sound(cfg, s)
    ensures s.parts != [] && |s.generations| == |s.appended| && |s.engine.frozen| == |s.engine.generations|
    ensures s.parts[|s.parts| - 1].start - 1 + |s.parts[|s.parts| - 1].es| == |s.appended|
  {
    hide Inv, Stamped, Tracked;
  }

  // --- Flushing what pins its segment ---

  lemma FlushNowRuns(cfg: EngineConfig, namespace: Bytes, s: Lifetime) returns (t: Lifetime)
    requires Sound(cfg, s) && s.pc.Ready? && s.engine.frozen != [] && s.engine.generations != []
    ensures t == Advance(cfg, namespace, s, FlushNow(0))
    ensures t == s.(engine := t.engine, pc := TableWritten(s.engine.generations[|s.engine.generations| - 1]))
    ensures t.engine.generation == s.engine.generation && |t.engine.frozen| < |s.engine.frozen|
  {
    hide FlushOldest, Inv, Stamped, Chained, GenerationsMatch, Tracked, MaxSeqno;
    var log := LogOf(s.appended);
    FlushKeeps(cfg, s.engine, log, 0);
    FlushFacts(cfg, s.engine, log, 0);
    hide LogOf;
    t := Advance(cfg, namespace, s, FlushNow(0));
  }

  /** One flush and its report to the tracker. */
  lemma FlushRound(cfg: EngineConfig, namespace: Bytes, s: Lifetime) returns (t: Lifetime)
    requires Sound(cfg, s) && s.pc.Ready? && s.engine.frozen != [] && s.engine.generations != []
    ensures t == Advance(cfg, namespace, Advance(cfg, namespace, s, FlushNow(0)), MarkFlushed)
    ensures var n := |s.engine.generations| - 1; var h := s.engine.generations[n];
            && Sound(cfg, t) && t.parts == s.parts && t.generations == s.generations
            && t.engine.generation == s.engine.generation && |t.engine.frozen| < |s.engine.frozen|
            && t.dirty == Flushed(s.dirty, h) && t.pc == Removing(NewlyClean(s.dirty, h))
  {
    hide Sound, NewlyClean, Flushed, Advance;
    var u := FlushNowRuns(cfg, namespace, s);
    t := Advance(cfg, namespace, u, MarkFlushed);
    MarkRuns(cfg, namespace, u);
    StepKeepsSound(cfg, namespace, s, FlushNow(0));
    StepKeepsSound(cfg, namespace, u, MarkFlushed);
  }

  lemma MarkRuns(cfg: EngineConfig, namespace: Bytes, s: Lifetime)
    requires s.pc.TableWritten?
    ensures Advance(cfg, namespace, s, MarkFlushed) == Marked(s)
  {
  }

  lemma {:induction false} RemovedIsGone(appended: seq<WalEntry>, parts: seq<Part>, j: nat)
    requires Chained(appended, parts) && j < |parts| - 1
    ensures forall p :: p in RemovePart(parts, parts[j].number) ==> p in parts && p.number != parts[j].number
    decreases |parts|
  {
    hide Holds;
    var segment, tail := parts[j].number, parts[1..];
    RemoveUnfolds(parts, segment);
    TailChained(appended, parts);
    if j == 0 {
      hide Chained;
    } else {
      assert tail[j - 1] == parts[j];
      assert parts[0].number < segment;
      hide Chained, RemovePart;
      RemovedIsGone(appended, tail, j - 1);
    }
  }

  lemma NoOtherHolds(appended: seq<WalEntry>, parts: seq<Part>, j: nat, i: nat)
    requires Chained(appended, parts) && j < |parts| && In(parts[j], i)
    ensures forall p :: p in parts && In(p, i) ==> p.number == parts[j].number
  {
    hide Holds;
    forall p | p in parts && In(p, i)
      ensures p.number == parts[j].number
    {
      var k :| 0 <= k < |parts| && parts[k] == p;
    }
  }

  lemma RemovalLoses(cfg: EngineConfig, namespace: Bytes, s: Lifetime, segment: nat, i: nat, j: nat)
    requires Chained(s.appended, s.parts) && j < |s.parts| - 1 && s.parts[j].number == segment && In(s.parts[j], i)
    requires s.pc.Removing? && segment in s.pc.segments && Clean(s.dirty, segment)
    requires s.engine.manifest.lastFlushed <= i < |s.appended|
    ensures !Covered(Advance(cfg, namespace, s, RemoveOne(segment)))
  {
    NoOtherHolds(s.appended, s.parts, j, i);
    RemovedIsGone(s.appended, s.parts, j);
    assert s.parts[j].number < s.parts[|s.parts| - 1].number;
    hide Chained, RemovePart;
    var t := Advance(cfg, namespace, s, RemoveOne(segment));
    assert t.parts == RemovePart(s.parts, segment);
    assert !Live(t.parts, i);
  }

  lemma AfterRound(cfg: EngineConfig, namespace: Bytes, began: nat, events: seq<Event>, last: Event)
    ensures var s := After(cfg, namespace, began, events);
            After(cfg, namespace, began, events + [FlushNow(0), MarkFlushed, last])
            == Advance(cfg, namespace, Advance(cfg, namespace, Advance(cfg, namespace, s, FlushNow(0)), MarkFlushed), last)
  {
    hide After, Advance;
    AfterOneMore(cfg, namespace, began, events, FlushNow(0));
    AfterOneMore(cfg, namespace, began, events + [FlushNow(0)], MarkFlushed);
    AfterOneMore(cfg, namespace, began, events + [FlushNow(0)] + [MarkFlushed], last);
    assert events + [FlushNow(0)] + [MarkFlushed] + [last] == events + [FlushNow(0), MarkFlushed, last];
  }

  /** Flush by flush, the generations that pin the segment go, and then the segment. */
  lemma {:induction false} DrainLoses(cfg: EngineConfig, namespace: Bytes, began: nat, events: seq<Event>, segment: nat, i: nat) returns (more: seq<Event>)
    requires var s := After(cfg, namespace, began, events); Sound(cfg, s) && s.pc.Ready? && Exposed(s, segment, i)
    ensures WriteFree(more) && !Covered(After(cfg, namespace, began, events + more))
    decreases |After(cfg, namespace, began, events).engine.frozen|
  {
    hide Sound, After, Advance, Covered, NewlyClean, Flushed, Exposed, Clean;
    var s := After(cfg, namespace, began, events);
    PinnedByFrozen(cfg, s, segment, i);
    var t := FlushRound(cfg, namespace, s);
    var h := s.engine.generations[|s.engine.generations| - 1];
    if Clean(t.dirty, segment) {
      LastPinGoes(cfg, namespace, s, t, h, segment, i);
      AfterRound(cfg, namespace, began, events, RemoveOne(segment));
      more := [FlushNow(0), MarkFlushed, RemoveOne(segment)];
    } else {
      StillExposed(cfg, namespace, s, t, h, segment, i);
      AfterRound(cfg, namespace, began, events, DoneRemoving);
      var round := [FlushNow(0), MarkFlushed, DoneRemoving];
      var rest := DrainLoses(cfg, namespace, began, events + round, segment, i);
      more := round + rest;
      assert events + round + rest == events + more;
    }
  }

  lemma PinnedByFrozen(cfg: EngineConfig, s: Lifetime, segment: nat, i: nat)
    requires Sound(cfg, s) && s.pc.Ready? && Exposed(s, segment, i)
    ensures s.engine.frozen != [] && s.engine.generations != []
  {
    SoundFacts(cfg, s);
    hide Inv, Stamped, Chained, GenerationsMatch;
    var g :| g in Generations(s.dirty, segment);
    assert g in s.engine.generations;
  }

  lemma LastPinGoes(cfg: EngineConfig, namespace: Bytes, s: Lifetime, t: Lifetime, h: nat, segment: nat, i: nat)
    requires Exposed(s, segment, i) && Sound(cfg, t) && t.parts == s.parts && t.generations == s.generations
    requires t.engine.generation == s.engine.generation
    requires t.dirty == Flushed(s.dirty, h) && t.pc == Removing(NewlyClean(s.dirty, h)) && Clean(t.dirty, segment)
    ensures !Covered(Advance(cfg, namespace, t, RemoveOne(segment)))
  {
    ReportedIsClean(s.dirty, h, segment);
    CurrentUnflushed(cfg, t, i);
    var j :| 0 <= j < |s.parts| - 1 && s.parts[j].number == segment && In(s.parts[j], i);
    SoundChain(cfg, t);
    hide Sound, Advance, Covered, NewlyClean, Flushed, Chained;
    RemovalLoses(cfg, namespace, t, segment, i, j);
  }

  lemma SoundChain(cfg: EngineConfig, s: Lifetime)
    requires Sound(cfg, s)
    ensures Chained(s.appended, s.parts)
  {
  }

  /** An entry of the current memtable is in no table. */
  lemma CurrentUnflushed(cfg: EngineConfig, s: Lifetime, i: nat)
    requires Sound(cfg, s) && i < |s.generations| && s.generations[i] == s.engine.generation
    ensures s.engine.manifest.lastFlushed <= i < |s.appended|
  {
    hide Chained, Stamped, Tracked;
    assert InActive(s.engine.active, i);
    assert s.engine.Memtables()[0] == s.engine.active;
    assert AllAbove(s.engine.active, s.engine.manifest.lastFlushed);
  }

  lemma StillExposed(cfg: EngineConfig, namespace: Bytes, s: Lifetime, t: Lifetime, h: nat, segment: nat, i: nat)
    requires Exposed(s, segment, i) && Sound(cfg, t) && t.pc.Removing? && t.parts == s.parts && t.generations == s.generations
    requires t.engine.generation == s.engine.generation
    requires t.dirty == Flushed(s.dirty, h) && !Clean(t.dirty, segment)
    ensures var u := Advance(cfg, namespace, t, DoneRemoving);
            Sound(cfg, u) && u.pc.Ready? && Exposed(u, segment, i) && u.engine == t.engine
  {
    hide Sound;
    DoneKeeps(cfg, t);
    assert forall g :: g in Generations(t.dirty, segment) ==> g in Generations(s.dirty, segment);
  }

  // --- The exact condition ---

  /** A misplaced tracker entry loses its write: finish the write, flush the generations recorded for
      its segment, and clean up. */
  lemma {:induction false} MisplacedIsLost(cfg: EngineConfig, namespace: Bytes, began: nat, events: seq<Event>, e: Event)
    requires FittingRun(namespace, events) && FittingEvent(namespace, e)
    requires Misplaces(cfg, After(cfg, namespace, began, events), e)
    ensures !NeverLoses(cfg, namespace, began, events + [e])
  {
    hide Sound, After, Advance, Covered, FittingRun, FittingEvent, Exposed, Completed, Misplaces, WriteFree;
    RunKeepsSound(cfg, namespace, began, events);
    var s := After(cfg, namespace, began, events);
    NotInFlight(cfg, s, e);
    MisplacedIsExposed(cfg, namespace, s, e);
    StepKeepsSound(cfg, namespace, s, e);
    AfterOneMore(cfg, namespace, began, events, e);
    AfterOneMore(cfg, namespace, began, events + [e], InsertNow);
    InsertCompletes(cfg, namespace, Advance(cfg, namespace, s, e));
    var more := DrainLoses(cfg, namespace, began, events + [e] + [InsertNow], s.parts[|s.parts| - 1].number, |s.appended|);
    assert events + [e] + [InsertNow] + more == events + [e] + ([InsertNow] + more);
    InsertIsNoWrite(more);
  }

  lemma NotInFlight(cfg: EngineConfig, s: Lifetime, e: Event)
    requires Misplaces(cfg, s, e)
    ensures Completed(s) == s && s.parts != []
  {
  }

  lemma InsertIsNoWrite(more: seq<Event>)
    requires WriteFree(more)
    ensures WriteFree([InsertNow] + more)
  {
  }

  lemma InsertCompletes(cfg: EngineConfig, namespace: Bytes, s: Lifetime)
    ensures Advance(cfg, namespace, s, InsertNow) == Completed(s)
  {
  }

  lemma {:induction false} PlacedStaysPlaced(cfg: EngineConfig, namespace: Bytes, began: nat, events: seq<Event>, more: seq<Event>)
    requires WellPlaced(cfg, namespace, began, events) && WriteFree(more)
    ensures WellPlaced(cfg, namespace, began, events + more)
  {
    hide After, Exposes, Admits;
    var all := events + more;
    forall i | 0 <= i < |all|
      ensures !Misplaces(cfg, After(cfg, namespace, began, all[..i]), all[i])
    {
      if i < |events| {
        assert all[..i] == events[..i] && all[i] == events[i];
      } else {
        assert all[i] == more[i - |events|];
      }
    }
  }

  /** Retention, exactly: in a run of the first lifetime no entry that is in no table can be lost, at
      any point and however the engine goes on without further writes, if and only if no write
      misplaces its tracker entry. */
  lemma {:induction false} RetentionIff(cfg: EngineConfig, namespace: Bytes, began: nat, events: seq<Event>)
    requires FittingRun(namespace, events)
    ensures WellPlaced(cfg, namespace, began, events) <==>
            forall n :: 0 <= n <= |events| ==> NeverLoses(cfg, namespace, began, events[..n])
  {
    hide After, Misplaces, Covered, FittingEvent;
    if WellPlaced(cfg, namespace, began, events) {
      forall n | 0 <= n <= |events|
        ensures NeverLoses(cfg, namespace, began, events[..n])
      {
        PlacedNeverLoses(cfg, namespace, began, events, n);
      }
    } else {
      var i :| 0 <= i < |events| && Misplaces(cfg, After(cfg, namespace, began, events[..i]), events[i]);
      hide NeverLoses;
      MisplacedIsLost(cfg, namespace, began, events[..i], events[i]);
      assert events[..i] + [events[i]] == events[..i + 1];
    }
  }

  lemma {:induction false} PlacedNeverLoses(cfg: EngineConfig, namespace: Bytes, began: nat, events: seq<Event>, n: nat)
    requires FittingRun(namespace, events) && WellPlaced(cfg, namespace, began, events) && n <= |events|
    ensures NeverLoses(cfg, namespace, began, events[..n])
  {
    hide After, Misplaces, WellPlaced, Sound, AllPinned, Covered, Fits;
    PrefixPlaced(cfg, namespace, began, events, n);
    forall more | WriteFree(more)
      ensures Covered(After(cfg, namespace, began, events[..n] + more))
    {
      PlacedStaysPlaced(cfg, namespace, began, events[..n], more);
      RunKeepsGood(cfg, namespace, began, events[..n] + more);
      CompletedCovers(After(cfg, namespace, began, events[..n] + more));
    }
  }
}
