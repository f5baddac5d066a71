/** No segment is removed while it holds an entry that is in no table. */
module RecoveryInvariant {
  import opened Wrappers
  import opened ByteStrings
  import opened CompositeKeys
  import opened Entries
  import opened Manifests
  import opened Compaction
  import opened Engine
  import opened EngineInvariant
  import opened WalEntries
  import opened WalReplay
  import opened DirtySegments
  import opened Recovery

  // --- The invariant ---

  /** The engine's history, as the log tells it. */
  ghost function LogOf(appended: seq<WalEntry>): (log: seq<Entry>)
    ensures |log| == |appended| && forall i :: 0 <= i < |log| ==> log[i] == EntryOf(appended[i])
  {
    seq(|appended|, i requires 0 <= i < |appended| => EntryOf(appended[i]))
  }

  ghost predicate StampedAt(w: WalEntry, i: nat) {
    w.seqno == i + 1 && NewKey(w.record, w.item).Ok? && Encodable(w) && w.kind != RangeDelete
  }

  ghost predicate Stamped(appended: seq<WalEntry>) {
    forall i :: 0 <= i < |appended| ==> StampedAt(appended[i], i)
  }

  /** The segment holds a run of the appended entries, starting where its header says. */
  ghost predicate Holds(appended: seq<WalEntry>, p: Part) {
    && 1 <= p.start < U64 && p.start - 1 + |p.es| <= |appended| && p.torn == []
    && p.es == appended[p.start - 1..p.start - 1 + |p.es|]
  }

  predicate In(p: Part, i: nat) {
    p.start - 1 <= i < p.start - 1 + |p.es|
  }

  /** Live segments in order, the current one reaching to the end. */
  ghost predicate Chained(appended: seq<WalEntry>, parts: seq<Part>) {
    && parts != []
    && (forall j :: 0 <= j < |parts| ==> Holds(appended, parts[j]))
    && (forall j, k :: 0 <= j < k < |parts| ==> parts[j].start + |parts[j].es| <= parts[k].start && parts[j].number < parts[k].number)
    && parts[|parts| - 1].start - 1 + |parts[|parts| - 1].es| == |appended|
  }

  /** A segment that was left behind with nothing recorded against it: no flush reports it clean, so
      nothing removes it. */
  ghost predicate Sealed(s: Lifetime, segment: nat) {
    && Clean(s.dirty, segment)
    && s.parts != [] && segment < s.parts[|s.parts| - 1].number
    && (s.pc.Removing? ==> segment !in s.pc.segments)
  }

  /** An entry that is in no table pins its segment by its generation, or the segment is sealed. */
  ghost predicate Pinned(s: Lifetime, p: Part) {
    |s.generations| == |s.appended| && p.start - 1 + |p.es| <= |s.appended| &&
    forall i :: s.engine.manifest.lastFlushed <= i && In(p, i) ==>
      s.generations[i] in Generations(s.dirty, p.number) || Sealed(s, p.number)
  }

  ghost predicate AllPinned(s: Lifetime) {
    forall j :: 0 <= j < |s.parts| ==> Pinned(s, s.parts[j])
  }

  ghost predicate Live(parts: seq<Part>, i: nat) {
    exists j :: 0 <= j < |parts| && In(parts[j], i)
  }

  /** Every entry not yet in a table is in a live segment. */
  ghost predicate Covered(s: Lifetime) {
    forall i :: s.engine.manifest.lastFlushed <= i < |s.appended| ==> Live(s.parts, i)
  }

  ghost predicate InActive(mt: Memtable, i: nat) {
    exists e :: e in mt.entries && e.seqno == i + 1
  }

  /** The entries of a generation are those of its memtable. */
  ghost predicate GenerationsMatch(s: Lifetime) {
    && |s.generations| == |s.appended|
    && |s.engine.generations| == |s.engine.frozen|
    && (forall i :: 0 <= i < |s.generations| ==> s.generations[i] <= s.engine.generation)
    && (forall j :: 0 <= j < |s.engine.generations| ==> s.engine.generations[j] < s.engine.generation)
    && (forall i :: 0 <= i < |s.generations| && s.generations[i] == s.engine.generation ==> InActive(s.engine.active, i))
    && (forall i, j :: 0 <= i < |s.generations| && 0 <= j < |s.engine.frozen| && s.generations[i] == s.engine.generations[j]
          ==> i + 1 <= MaxSeqno(s.engine.frozen[j].entries))
    && (s.pc.TableWritten? ==> GenerationFlushed(s, s.pc.generation))
  }

  ghost predicate GenerationFlushed(s: Lifetime, g: nat) {
    forall i :: 0 <= i < |s.generations| && s.generations[i] == g ==> i + 1 <= s.engine.manifest.lastFlushed
  }

  /** Recorded generations are the current one, the frozen ones, and one that is just flushed. */
  ghost predicate Tracked(s: Lifetime) {
    forall segment, g :: g in Generations(s.dirty, segment) ==>
      g == s.engine.generation || g in s.engine.generations || (s.pc.TableWritten? && g == s.pc.generation)
  }

  /** What every step keeps, wherever its tracker entry goes. */
  ghost predicate Sound(cfg: EngineConfig, s: Lifetime) {
    && Inv(cfg, s.engine, LogOf(s.appended))
    && s.engine.nextSeqno == |s.appended| + 1
    && |s.appended| + 1 < U64
    && Stamped(s.appended)
    && Chained(s.appended, s.parts)
    && GenerationsMatch(s)
    && Tracked(s)
  }

  ghost predicate Good(cfg: EngineConfig, s: Lifetime) {
    Sound(cfg, s) && AllPinned(s) && Covered(s)
  }

  // --- Writes ---

  /** Field lengths fit the log's prefixes. */
  predicate Fits(namespace: Bytes, op: Op) {
    && |namespace| < U16
    && (op.PutOp? ==>
          && |op.metadata| < U16 && |op.token| == TOKEN_SIZE
          && FIXED_BODY + |namespace| + |op.record| + |op.item| + |op.value| + |op.metadata| < U32)
  }

  lemma LogEntryStamped(namespace: Bytes, s: State, op: Op, i: nat)
    requires (op.PutOp? || op.DeleteOp?) && Fits(namespace, op) && Request(s, op).Ok? && i + 2 < U64
    ensures var (e, token) := Request(s, op).value; var w := LogEntry(namespace, e, token, i + 1);
            StampedAt(w, i) && EntryOf(w) == e.(seqno := i + 1) && e.seqno == s.nextSeqno
  {
    JoinSplit(op.record, op.item);
  }

  lemma ChainedAppend(appended: seq<WalEntry>, parts: seq<Part>, w: WalEntry, rotate: bool, now: nat)
    requires Chained(appended, parts) && w.seqno == |appended| + 1 && w.seqno + 1 < U64
    ensures Chained(appended + [w], AppendPart(parts, w, rotate, now))
  {
    var after, out, n := appended + [w], AppendPart(parts, w, rotate, now), |parts| - 1;
    forall j | 0 <= j < |out|
      ensures Holds(after, out[j])
    {
      if j < n {
        assert Holds(appended, parts[j]) && out[j] == parts[j];
        assert after[parts[j].start - 1..parts[j].start - 1 + |parts[j].es|] == appended[parts[j].start - 1..parts[j].start - 1 + |parts[j].es|];
      } else if j == n {
        assert Holds(appended, parts[n]);
        assert out[n].es == appended[parts[n].start - 1..] + [w] == after[parts[n].start - 1..];
      }
    }
  }

  lemma AppendCovers(s: Lifetime, t: Lifetime, w: WalEntry, rotate: bool, now: nat)
    requires s.parts != [] && Covered(s) && Chained(s.appended, s.parts)
    requires t.parts == AppendPart(s.parts, w, rotate, now) && t.appended == s.appended + [w]
    requires t.engine.manifest.lastFlushed == s.engine.manifest.lastFlushed
    ensures Covered(t)
  {
    var n := |s.parts| - 1;
    forall i | t.engine.manifest.lastFlushed <= i < |t.appended|
      ensures Live(t.parts, i)
    {
      if i == |s.appended| {
        assert In(t.parts[n], i);
      } else {
        assert Live(s.parts, i);
        var j :| 0 <= j < |s.parts| && In(s.parts[j], i);
        assert In(t.parts[j], i);
      }
    }
  }

  /** A record of `generation` in the segment that follows the current one leaves the entry just
      written exposed: its own segment is recorded for other generations only, and is removed when
      they are flushed. */
  predicate Exposes(s: Lifetime, recorded: nat) {
    s.parts != [] &&
    var gens := Generations(s.dirty, s.parts[|s.parts| - 1].number);
    recorded != s.parts[|s.parts| - 1].number && gens != map[] && s.engine.generation !in gens
  }

  lemma {:induction false} AppendPins(s: Lifetime, t: Lifetime, w: WalEntry, rotate: bool, recorded: nat, now: nat)
    requires s.parts != [] && AllPinned(s) && Chained(s.appended, s.parts) && w.seqno == |s.appended| + 1
    requires |s.generations| == |s.appended| && !t.pc.Removing?
    requires t.parts == AppendPart(s.parts, w, rotate, now) && t.appended == s.appended + [w]
    requires t.generations == s.generations + [s.engine.generation]
    requires t.engine.manifest.lastFlushed == s.engine.manifest.lastFlushed
    requires t.dirty == Record(s.dirty, recorded, s.engine.generation, 0)
    requires recorded == s.parts[|s.parts| - 1].number || recorded == t.parts[|t.parts| - 1].number
    requires !Exposes(s, recorded)
    ensures AllPinned(t)
  {
    var n := |s.parts| - 1;
    forall j | 0 <= j < |t.parts|
      ensures Pinned(t, t.parts[j])
    {
      if j <= n {
        assert Pinned(s, s.parts[j]) && Holds(s.appended, s.parts[j]);
        assert t.parts[j].number == s.parts[j].number;
        hide Chained, Holds, AllPinned;
        forall i | t.engine.manifest.lastFlushed <= i && In(t.parts[j], i)
          ensures t.generations[i] in Generations(t.dirty, t.parts[j].number) || Sealed(t, t.parts[j].number)
        {
          if j == n && i == |s.appended| {
            assert t.generations[i] == s.engine.generation;
          } else {
            assert In(s.parts[j], i);
            assert t.generations[i] == s.generations[i];
            assert s.generations[i] in Generations(s.dirty, s.parts[j].number) || Sealed(s, s.parts[j].number);
          }
        }
      }
    }
  }

  lemma AppendMatches(s: Lifetime, t: Lifetime, e: Entry, token: Token)
    requires GenerationsMatch(s) && s.pc.Ready?
    requires s.engine.nextSeqno == |s.appended| + 1 == s.engine.active.nextSeqno
    requires GoodMemtable(s.engine.active) && forall x :: x in s.engine.active.entries ==> x.seqno < s.engine.active.nextSeqno
    requires t.engine == Accept(s.engine, e, token) && |t.appended| == |s.appended| + 1 && t.pc == s.pc
    requires t.generations == s.generations + [s.engine.generation]
    ensures GenerationsMatch(t)
  {
    InsertTier(s.engine.active, e, token);
    var numbered := e.(seqno := s.engine.active.nextSeqno);
    var after := t.engine.active;
    assert forall x :: x in TierOf(after) <==> x in TierOf(s.engine.active) || x == numbered;
    assert numbered in after.entries;
    forall i | 0 <= i < |t.generations| && t.generations[i] == t.engine.generation
      ensures InActive(after, i)
    {
      if i < |s.generations| {
        assert InActive(s.engine.active, i);
        var x :| x in s.engine.active.entries && x.seqno == i + 1;
        assert x in TierOf(after);
      }
    }
  }

  lemma AppendTracks(s: Lifetime, t: Lifetime, recorded: nat)
    requires Tracked(s) && !s.pc.TableWritten?
    requires t.dirty == Record(s.dirty, recorded, s.engine.generation, 0)
    requires t.engine.generation == s.engine.generation && t.engine.generations == s.engine.generations
    ensures Tracked(t)
  {
    forall segment, g | g in Generations(t.dirty, segment)
      ensures g == t.engine.generation || g in t.engine.generations
    {
      assert g == s.engine.generation || g in Generations(s.dirty, segment);
    }
  }

  /** A logged, recorded and buffered write. */
  ghost function Appended(s: Lifetime, e: Entry, token: Token, w: WalEntry, rotate: bool, recorded: nat, now: nat): Lifetime
    requires s.parts != []
  {
    s.(engine := Accept(s.engine, e, token), parts := AppendPart(s.parts, w, rotate, now),
       dirty := Record(s.dirty, recorded, s.engine.generation, 0),
       appended := s.appended + [w], generations := s.generations + [s.engine.generation])
  }

  lemma AppendKeeps(cfg: EngineConfig, s: Lifetime, e: Entry, token: Token, w: WalEntry, rotate: bool, recorded: nat, now: nat)
    requires Sound(cfg, s) && s.pc.Ready? && |s.appended| + 2 < U64
    requires StampedAt(w, |s.appended|) && EntryOf(w) == e && e.seqno == s.engine.nextSeqno
    ensures s.parts != [] && Sound(cfg, Appended(s, e, token, w, rotate, recorded, now))
  {
    hide Inv, Accept, Record, StampedAt, AppendPart, Chained, GenerationsMatch, Tracked;
    PartsExist(s);
    StampedSeqno(w, |s.appended|);
    var t := Appended(s, e, token, w, rotate, recorded, now);
    ActiveIsGood(cfg, s.engine, LogOf(s.appended));
    AcceptKeeps(cfg, s.engine, LogOf(s.appended), e, token);
    assert LogOf(s.appended) + [e] == LogOf(t.appended);
    AcceptLeaves(s.engine, e, token);
    ChainedAppend(s.appended, s.parts, w, rotate, now);
    AppendMatches(s, t, e, token);
    AppendTracks(s, t, recorded);
  }

  lemma AppendRetains(cfg: EngineConfig, s: Lifetime, e: Entry, token: Token, w: WalEntry, rotate: bool, recorded: nat, now: nat)
    requires Good(cfg, s) && s.pc.Ready? && s.parts != [] && w.seqno == |s.appended| + 1
    requires var parts := AppendPart(s.parts, w, rotate, now);
             recorded == s.parts[|s.parts| - 1].number || recorded == parts[|parts| - 1].number
    requires !Exposes(s, recorded)
    ensures var t := Appended(s, e, token, w, rotate, recorded, now); AllPinned(t) && Covered(t)
  {
    hide Inv, Accept, Record, AppendPart, Chained, GenerationsMatch, Tracked, Covered, AllPinned, Stamped, Exposes;
    var t := Appended(s, e, token, w, rotate, recorded, now);
    AcceptLeaves(s.engine, e, token);
    AppendCovers(s, t, w, rotate, now);
    SameCount(s);
    AppendPins(s, t, w, rotate, recorded, now);
  }

  lemma PartsExist(s: Lifetime)
    requires Chained(s.appended, s.parts)
    ensures s.parts != []
  {
  }

  lemma SameCount(s: Lifetime)
    requires GenerationsMatch(s)
    ensures |s.generations| == |s.appended|
  {
  }

  lemma StampedSeqno(w: WalEntry, i: nat)
    requires StampedAt(w, i)
    ensures w.seqno == i + 1
  {
  }

  /** The segment a write records itself against. */
  function Recorded(s: Lifetime, rotate: bool, raced: bool): nat
    requires s.parts != []
  {
    var current := s.parts[|s.parts| - 1].number;
    if raced && rotate then current + 1 else current
  }

  lemma WriteThenInsert(cfg: EngineConfig, namespace: Bytes, s: Lifetime, op: Op, rotate: bool, raced: bool, now: nat, e: Entry, token: Token)
    requires s.pc.Ready? && (op.PutOp? || op.DeleteOp?) && Admits(cfg, s, op) && Request(s.engine, op) == Ok((e, token))
    ensures Completed(WriteStep(cfg, namespace, s, op, rotate, raced, now))
            == Appended(s, e, token, LogEntry(namespace, e, token, |s.appended| + 1), rotate, Recorded(s, rotate, raced), now)
  {
    hide Accept, Record, Request, AppendPart, LogEntry, Stalled;
    CurrentAfter(s.parts, LogEntry(namespace, e, token, |s.appended| + 1), rotate, now);
  }

  lemma NextIsAppended(cfg: EngineConfig, s: Lifetime)
    requires Sound(cfg, s)
    ensures s.engine.nextSeqno == |s.appended| + 1
  {
  }

  lemma WriteIsAppend(cfg: EngineConfig, namespace: Bytes, s: Lifetime, op: Op, rotate: bool, raced: bool, now: nat) returns (e: Entry, token: Token, w: WalEntry)
    requires Sound(cfg, s) && s.pc.Ready? && (op.PutOp? || op.DeleteOp?) && Fits(namespace, op) && Admits(cfg, s, op)
    ensures StampedAt(w, |s.appended|) && EntryOf(w) == e && e.seqno == s.engine.nextSeqno
    ensures Completed(WriteStep(cfg, namespace, s, op, rotate, raced, now)) == Appended(s, e, token, w, rotate, Recorded(s, rotate, raced), now)
    ensures var parts := AppendPart(s.parts, w, rotate, now); var r := Recorded(s, rotate, raced);
            r == s.parts[|s.parts| - 1].number || r == parts[|parts| - 1].number
  {
    hide Sound, Accept, Record, NewKey, Request, AppendPart, StampedAt, Stalled, Fits, LogEntry, EntryOf, Completed, WriteStep, Appended;
    NextIsAppended(cfg, s);
    e, token := Request(s.engine, op).value.0, Request(s.engine, op).value.1;
    w := LogEntry(namespace, e, token, |s.appended| + 1);
    LogEntryStamped(namespace, s.engine, op, |s.appended|);
    WriteThenInsert(cfg, namespace, s, op, rotate, raced, now, e, token);
    CurrentAfter(s.parts, w, rotate, now);
  }

  lemma CurrentAfter(parts: seq<Part>, w: WalEntry, rotate: bool, now: nat)
    requires parts != []
    ensures var out := AppendPart(parts, w, rotate, now);
            out != [] && out[|out| - 1].number == parts[|parts| - 1].number + (if rotate then 1 else 0)
  {
  }

  lemma WriteKeepsSound(cfg: EngineConfig, namespace: Bytes, s: Lifetime, op: Op, rotate: bool, raced: bool, now: nat)
    requires Sound(cfg, s) && s.pc.Ready? && (op.PutOp? || op.DeleteOp?) && Fits(namespace, op)
    ensures Sound(cfg, Completed(WriteStep(cfg, namespace, s, op, rotate, raced, now)))
  {
    hide Sound, AppendPart, Accept, Record, NewKey, Request, StampedAt;
    if Admits(cfg, s, op) {
      var e, token, w := WriteIsAppend(cfg, namespace, s, op, rotate, raced, now);
      hide WriteStep, Completed;
      AppendKeeps(cfg, s, e, token, w, rotate, Recorded(s, rotate, raced), now);
    }
  }

  lemma WriteRetains(cfg: EngineConfig, namespace: Bytes, s: Lifetime, op: Op, rotate: bool, raced: bool, now: nat)
    requires Good(cfg, s) && s.pc.Ready? && (op.PutOp? || op.DeleteOp?) && Fits(namespace, op)
    requires Admits(cfg, s, op) ==> !Exposes(s, Recorded(s, rotate, raced))
    ensures var t := Completed(WriteStep(cfg, namespace, s, op, rotate, raced, now)); AllPinned(t) && Covered(t)
  {
    hide Sound, AppendPart, Accept, Record, NewKey, Request, AllPinned, Covered, Exposes;
    if Admits(cfg, s, op) {
      var e, token, w := WriteIsAppend(cfg, namespace, s, op, rotate, raced, now);
      StampedSeqno(w, |s.appended|);
      hide WriteStep, Completed;
      AppendRetains(cfg, s, e, token, w, rotate, Recorded(s, rotate, raced), now);
    }
  }

  lemma AcceptLeaves(s: State, e: Entry, token: Token)
    ensures var t := Accept(s, e, token);
            && t.manifest == s.manifest && t.nextSeqno == s.nextSeqno + 1
            && t.generation == s.generation && t.generations == s.generations
  {
  }

  lemma ActiveIsGood(cfg: EngineConfig, s: State, log: seq<Entry>)
    requires Inv(cfg, s, log)
    ensures GoodMemtable(s.active) && s.active.nextSeqno == s.nextSeqno
    ensures forall x :: x in s.active.entries ==> x.seqno < s.nextSeqno
  {
    assert s.Memtables()[0] == s.active;
    ActiveIsLogged(cfg, s, log);
  }

  // --- Freezing, flushing, compacting ---

  /** With the log untouched and the flushed mark not going back, pins and coverage stay. */
  lemma LogUntouched(s: Lifetime, t: Lifetime)
    requires t.parts == s.parts && t.dirty == s.dirty && t.appended == s.appended && t.generations == s.generations
    requires t.engine.manifest.lastFlushed >= s.engine.manifest.lastFlushed && !t.pc.Removing?
    ensures AllPinned(s) ==> AllPinned(t)
    ensures Covered(s) ==> Covered(t)
  {
    if AllPinned(s) {
      forall j | 0 <= j < |t.parts|
        ensures Pinned(t, t.parts[j])
      {
        assert Pinned(s, s.parts[j]);
        assert Sealed(s, s.parts[j].number) ==> Sealed(t, t.parts[j].number);
      }
    }
  }

  /** Generations stay tracked when they only move on. */
  lemma StillTracked(s: Lifetime, t: Lifetime)
    requires Tracked(s) && t.dirty == s.dirty && !s.pc.TableWritten?
    requires t.engine.generation == s.engine.generation || s.engine.generation in t.engine.generations
    requires forall g :: g in s.engine.generations ==> g in t.engine.generations || (t.pc.TableWritten? && g == t.pc.generation)
    ensures Tracked(t)
  {
  }

  lemma FreezeMatches(cfg: EngineConfig, s: Lifetime)
    requires GenerationsMatch(s) && s.pc.Ready? && Freeze(cfg, s.engine).Ok?
    ensures GenerationsMatch(s.(engine := Freeze(cfg, s.engine).value))
  {
    var t := s.(engine := Freeze(cfg, s.engine).value);
    forall i, j | 0 <= i < |t.generations| && 0 <= j < |t.engine.frozen| && t.generations[i] == t.engine.generations[j]
      ensures i + 1 <= MaxSeqno(t.engine.frozen[j].entries)
    {
      if j == 0 {
        assert InActive(s.engine.active, i);
      } else {
        assert t.engine.generations[j] == s.engine.generations[j - 1] && t.engine.frozen[j] == s.engine.frozen[j - 1];
      }
    }
  }

  lemma FreezeStepKeeps(cfg: EngineConfig, s: Lifetime)
    requires Sound(cfg, s) && s.pc.Ready? && s.engine.active.entries != [] && Freeze(cfg, s.engine).Ok?
    ensures Sound(cfg, s.(engine := Freeze(cfg, s.engine).value))
  {
    hide Inv, Chained, Stamped, GenerationsMatch, Tracked;
    var t := s.(engine := Freeze(cfg, s.engine).value);
    FreezeKeeps(cfg, s.engine, LogOf(s.appended));
    FreezeMatches(cfg, s);
    assert t.engine.generations[0] == s.engine.generation;
    StillTracked(s, t);
  }

  lemma FlushMatches(s: Lifetime, t: Lifetime)
    requires GenerationsMatch(s) && s.engine.frozen != []
    requires t.appended == s.appended && t.generations == s.generations
    requires t.engine.active == s.engine.active && t.engine.generation == s.engine.generation
    requires t.engine.frozen == s.engine.frozen[..|s.engine.frozen| - 1]
    requires t.engine.generations == s.engine.generations[..|s.engine.generations| - 1]
    requires t.engine.manifest.lastFlushed == MaxSeqno(s.engine.frozen[|s.engine.frozen| - 1].entries)
    requires t.pc == TableWritten(s.engine.generations[|s.engine.generations| - 1])
    ensures GenerationsMatch(t)
  {
    hide MaxSeqno, InActive;
  }

  lemma FlushStepKeeps(cfg: EngineConfig, s: Lifetime, now: nat)
    requires Sound(cfg, s) && s.pc.Ready? && s.engine.frozen != [] && s.engine.generations != []
    ensures var t := s.(engine := FlushOldest(cfg, s.engine, now).0, pc := TableWritten(s.engine.generations[|s.engine.generations| - 1]));
            Sound(cfg, t) && t.engine.manifest.lastFlushed >= s.engine.manifest.lastFlushed
  {
    hide Inv, Chained, Stamped, GenerationsMatch, FlushOldest, MaxSeqno, Tracked;
    var t := s.(engine := FlushOldest(cfg, s.engine, now).0, pc := TableWritten(s.engine.generations[|s.engine.generations| - 1]));
    FlushKeeps(cfg, s.engine, LogOf(s.appended), now);
    FlushFacts(cfg, s.engine, LogOf(s.appended), now);
    FlushMatches(s, t);
    OldestLeaves(s.engine.generations);
    StillTracked(s, t);
  }

  lemma OldestLeaves(gens: seq<nat>)
    requires gens != []
    ensures forall g :: g in gens ==> g in gens[..|gens| - 1] || g == gens[|gens| - 1]
  {
    assert gens == gens[..|gens| - 1] + [gens[|gens| - 1]];
  }

  lemma {:induction false} TasksLeave(cfg: EngineConfig, s: State, tasks: seq<Task>, now: nat)
    ensures var t := RunTasks(cfg, s, tasks, now).0;
            && t.manifest.lastFlushed >= s.manifest.lastFlushed
            && t.active == s.active && t.frozen == s.frozen && t.nextSeqno == s.nextSeqno
            && t.generation == s.generation && t.generations == s.generations
    decreases |tasks|
  {
    hide Execute, RebuildLevels, IdsUsed;
    if tasks != [] {
      var r := Execute(cfg.compaction, tasks[0], s.manifest, s.nextId, now);
      ExecuteKeepsFlushed(cfg.compaction, tasks[0], s.manifest, s.nextId, now);
      if r.Ok? {
        var next := s.(manifest := r.value, levels := RebuildLevels(r.value), nextId := s.nextId + IdsUsed(cfg.compaction, tasks[0]));
        TasksLeave(cfg, next, tasks[1..], now);
      }
    }
  }

  lemma ExecuteKeepsFlushed(cfg: Config, task: Task, m: Manifest, id: nat, now: nat)
    ensures var r := Execute(cfg, task, m, id, now); r.Ok? ==> r.value.lastFlushed >= m.lastFlushed
  {
  }

  lemma CompactStepKeeps(cfg: EngineConfig, s: Lifetime, now: nat)
    requires Sound(cfg, s) && s.pc.Ready?
    ensures var t := s.(engine := MaybeCompact(cfg, s.engine, now).0);
            Sound(cfg, t) && t.engine.manifest.lastFlushed >= s.engine.manifest.lastFlushed
  {
    hide Inv, Chained, Stamped, GenerationsMatch, Tracked;
    var t := s.(engine := MaybeCompact(cfg, s.engine, now).0);
    CompactKeeps(cfg, s.engine, LogOf(s.appended), now);
    TasksLeave(cfg, s.engine, CheckTriggers(cfg.compaction, s.engine.manifest.levels), now);
    hide RunTasks, CheckTriggers;
    CompactMatches(s, t);
    StillTracked(s, t);
  }

  lemma CompactMatches(s: Lifetime, t: Lifetime)
    requires GenerationsMatch(s) && s.pc.Ready? && t.pc == s.pc && t.appended == s.appended && t.generations == s.generations
    requires t.engine.active == s.engine.active && t.engine.frozen == s.engine.frozen
    requires t.engine.generations == s.engine.generations && t.engine.generation == s.engine.generation
    ensures GenerationsMatch(t)
  {
  }

  // --- Cleaning the log ---

  ghost function Marked(s: Lifetime): Lifetime
    requires s.pc.TableWritten?
  {
    s.(dirty := Flushed(s.dirty, s.pc.generation), pc := Removing(NewlyClean(s.dirty, s.pc.generation)))
  }

  lemma MarkKeeps(cfg: EngineConfig, s: Lifetime)
    requires Sound(cfg, s) && s.pc.TableWritten?
    ensures Sound(cfg, Marked(s))
  {
    hide Inv, Chained, Stamped, NewlyClean;
    MarkMatches(s, Marked(s));
    hide GenerationsMatch;
    var t := Marked(s);
    forall segment, g | g in Generations(t.dirty, segment)
      ensures g == t.engine.generation || g in t.engine.generations
    {
      assert g in Generations(s.dirty, segment) && g != s.pc.generation;
    }
  }

  lemma MarkMatches(s: Lifetime, t: Lifetime)
    requires GenerationsMatch(s) && !t.pc.TableWritten?
    requires t.engine == s.engine && t.appended == s.appended && t.generations == s.generations
    ensures GenerationsMatch(t)
  {
  }

  /** Forgetting a flushed generation unpins only entries that are in a table. */
  lemma MarkRetains(cfg: EngineConfig, s: Lifetime)
    requires Good(cfg, s) && s.pc.TableWritten?
    ensures AllPinned(Marked(s)) && Covered(Marked(s))
  {
    hide Inv, Chained, Covered, Stamped, NewlyClean, Tracked;
    var t := Marked(s);
    forall j | 0 <= j < |t.parts|
      ensures Pinned(t, t.parts[j])
    {
      var p := s.parts[j];
      assert Pinned(s, p);
      if Sealed(s, p.number) {
        MarkSeals(s, p.number);
      }
      forall i | t.engine.manifest.lastFlushed <= i && In(p, i)
        ensures t.generations[i] in Generations(t.dirty, p.number) || Sealed(t, p.number)
      {
        assert s.generations[i] != s.pc.generation;
      }
    }
    LogUntouchedCover(s, t);
  }

  lemma MarkSeals(s: Lifetime, segment: nat)
    requires s.pc.TableWritten? && Sealed(s, segment)
    ensures Sealed(Marked(s), segment)
  {
    ReportedIsClean(s.dirty, s.pc.generation, segment);
    hide NewlyClean;
  }

  lemma LogUntouchedCover(s: Lifetime, t: Lifetime)
    requires t.parts == s.parts && t.appended == s.appended && t.engine == s.engine
    ensures Covered(s) ==> Covered(t)
  {
  }

  ghost predicate Survives(parts: seq<Part>, out: seq<Part>, segment: nat) {
    && (forall p :: p in out ==> p in parts)
    && (forall p :: p in parts && p.number != segment ==> p in out)
  }

  lemma {:induction false} RemoveSurvives(parts: seq<Part>, segment: nat)
    requires parts != []
    ensures var out := RemovePart(parts, segment);
            out != [] && Survives(parts, out, segment) && out[|out| - 1] == parts[|parts| - 1]
    decreases |parts|
  {
    if |parts| == 1 {
      assert RemovePart(parts[1..], segment) == [];
      assert RemovePart(parts, segment) == parts;
    } else {
      var tail := parts[1..];
      assert parts == [parts[0]] + tail;
      RemoveSurvives(tail, segment);
    }
  }

  lemma TailChained(appended: seq<WalEntry>, parts: seq<Part>)
    requires Chained(appended, parts) && |parts| > 1
    ensures Chained(appended, parts[1..])
    ensures forall p :: p in parts[1..] ==> parts[0].start + |parts[0].es| <= p.start && parts[0].number < p.number
  {
    hide Holds;
    assert forall j :: 0 <= j < |parts[1..]| ==> parts[1..][j] == parts[j + 1];
  }

  lemma RemoveUnfolds(parts: seq<Part>, segment: nat)
    requires parts != []
    ensures RemovePart(parts, segment) ==
            if |parts| == 1 then parts
            else if parts[0].number == segment then parts[1..] else [parts[0]] + RemovePart(parts[1..], segment)
  {
    if |parts| == 1 {
      assert RemovePart(parts[1..], segment) == [];
    }
  }

  lemma {:induction false} RemoveKeepsChain(appended: seq<WalEntry>, parts: seq<Part>, segment: nat)
    requires Chained(appended, parts)
    ensures Chained(appended, RemovePart(parts, segment))
    decreases |parts|
  {
    hide Chained, Holds, RemovePart;
    ChainedHead(appended, parts);
    RemoveUnfolds(parts, segment);
    if |parts| > 1 {
      TailChained(appended, parts);
      var tail := parts[1..];
      if parts[0].number != segment {
        RemoveKeepsChain(appended, tail, segment);
        ChainedHead(appended, tail);
        RemoveSurvives(tail, segment);
        var rest := RemovePart(tail, segment);
        assert forall j :: 0 <= j < |rest| ==> rest[j] in rest && rest[j] in tail;
        ConsChained(appended, parts[0], rest);
      }
    }
  }

  lemma ChainedHead(appended: seq<WalEntry>, parts: seq<Part>)
    requires Chained(appended, parts)
    ensures parts != [] && Holds(appended, parts[0])
  {
  }

  lemma ConsChained(appended: seq<WalEntry>, p: Part, rest: seq<Part>)
    requires Holds(appended, p) && Chained(appended, rest)
    requires forall j :: 0 <= j < |rest| ==> p.start + |p.es| <= rest[j].start && p.number < rest[j].number
    ensures Chained(appended, [p] + rest)
  {
    hide Holds;
  }

  ghost function Removed(s: Lifetime, segment: nat): Lifetime
    requires s.pc.Removing?
  {
    s.(parts := RemovePart(s.parts, segment), dirty := s.dirty - {segment}, pc := Removing(s.pc.segments - {segment}))
  }

  lemma RemoveKeeps(cfg: EngineConfig, s: Lifetime, segment: nat)
    requires Sound(cfg, s) && s.pc.Removing?
    ensures Sound(cfg, Removed(s, segment))
  {
    hide Inv, Stamped;
    RemoveKeepsChain(s.appended, s.parts, segment);
    hide Chained, RemovePart;
    MarkMatches(s, Removed(s, segment));
    hide GenerationsMatch;
    assert forall n, g :: g in Generations(s.dirty - {segment}, n) ==> g in Generations(s.dirty, n);
  }

  /** Removing a segment that was reported clean loses only entries that are in a table. */
  lemma RemoveRetains(cfg: EngineConfig, s: Lifetime, segment: nat)
    requires Good(cfg, s) && s.pc.Removing? && segment in s.pc.segments && Clean(s.dirty, segment)
    ensures AllPinned(Removed(s, segment)) && Covered(Removed(s, segment))
    ensures forall p :: p in s.parts && p !in RemovePart(s.parts, segment) ==> AllFlushed(s, p)
  {
    hide Inv, Stamped, GenerationsMatch, Tracked;
    var t := Removed(s, segment);
    PartsExist(s);
    RemoveSurvives(s.parts, segment);
    hide Chained, RemovePart;
    forall p | p in s.parts && p.number == segment
      ensures AllFlushed(s, p)
    {
      CleanIsFlushed(s, p);
    }
    RemovedPins(s, t, segment);
    RemovedCovers(s, t, segment);
  }

  ghost predicate AllFlushed(s: Lifetime, p: Part) {
    forall i: nat :: In(p, i) ==> i < s.engine.manifest.lastFlushed
  }

  lemma CleanIsFlushed(s: Lifetime, p: Part)
    requires p in s.parts && AllPinned(s) && Clean(s.dirty, p.number) && s.pc.Removing? && p.number in s.pc.segments
    ensures AllFlushed(s, p)
  {
    assert Pinned(s, p);
    assert !Sealed(s, p.number);
    assert forall g :: g !in Generations(s.dirty, p.number);
  }

  lemma RemovedPins(s: Lifetime, t: Lifetime, segment: nat)
    requires AllPinned(s) && s.pc.Removing? && segment in s.pc.segments && Clean(s.dirty, segment)
    requires t == s.(parts := t.parts, dirty := s.dirty - {segment}, pc := Removing(s.pc.segments - {segment}))
    requires s.parts != [] && t.parts != [] && t.parts[|t.parts| - 1] == s.parts[|s.parts| - 1] && Survives(s.parts, t.parts, segment)
    ensures AllPinned(t)
  {
    forall j | 0 <= j < |t.parts|
      ensures Pinned(t, t.parts[j])
    {
      var p := t.parts[j];
      assert p in s.parts;
      assert Pinned(s, p);
      if p.number == segment {
        CleanIsFlushed(s, p);
      } else {
        assert Sealed(s, p.number) ==> Sealed(t, p.number);
      }
    }
  }

  lemma RemovedCovers(s: Lifetime, t: Lifetime, segment: nat)
    requires Covered(s) && Survives(s.parts, t.parts, segment)
    requires t.engine == s.engine && t.appended == s.appended
    requires forall p :: p in s.parts && p.number == segment ==> AllFlushed(s, p)
    ensures Covered(t)
  {
    forall i | t.engine.manifest.lastFlushed <= i < |t.appended|
      ensures Live(t.parts, i)
    {
      assert Live(s.parts, i);
      var j :| 0 <= j < |s.parts| && In(s.parts[j], i);
      assert s.parts[j] in s.parts;
      assert s.parts[j] in t.parts;
      var k :| 0 <= k < |t.parts| && t.parts[k] == s.parts[j];
    }
  }

  // --- Every run ---

  /** The field lengths of every write fit the log's prefixes. */
  predicate FittingRun(namespace: Bytes, events: seq<Event>) {
    forall i :: 0 <= i < |events| ==> FittingEvent(namespace, events[i])
  }

  predicate FittingEvent(namespace: Bytes, e: Event) {
    e.Write? ==> Fits(namespace, e.op)
  }

  lemma DoneKeeps(cfg: EngineConfig, s: Lifetime)
    requires Sound(cfg, s) && s.pc.Removing?
    ensures Sound(cfg, s.(pc := Ready))
  {
    hide Inv, Chained, Stamped;
    MarkMatches(s, s.(pc := Ready));
    hide GenerationsMatch;
  }

  /** A step that meets no write in flight leaves one only if it is a write. */
  lemma NothingInFlight(cfg: EngineConfig, namespace: Bytes, s: Lifetime, e: Event)
    requires !s.pc.Inserting? && !e.Write?
    ensures Completed(Advance(cfg, namespace, s, e)) == Advance(cfg, namespace, s, e)
  {
  }

  lemma InFlight(cfg: EngineConfig, namespace: Bytes, s: Lifetime, e: Event)
    requires s.pc.Inserting?
    ensures Completed(Advance(cfg, namespace, s, e)) == Completed(s)
  {
  }

  lemma {:induction false} StepKeepsSound(cfg: EngineConfig, namespace: Bytes, s: Lifetime, e: Event)
    requires Sound(cfg, Completed(s)) && FittingEvent(namespace, e)
    ensures Sound(cfg, Completed(Advance(cfg, namespace, s, e)))
  {
    hide Sound, WriteStep, Fits, FlushOldest, MaybeCompact, NewlyClean, Flushed, RemovePart;
    if s.pc.Inserting? {
      InFlight(cfg, namespace, s, e);
    } else if e.Write? {
      if s.pc.Ready? && (e.op.PutOp? || e.op.DeleteOp?) {
        WriteKeepsSound(cfg, namespace, s, e.op, e.rotate, e.raced, e.now);
      }
    } else {
      NothingInFlight(cfg, namespace, s, e);
      match e
      case FreezeNow =>
        if s.pc.Ready? && s.engine.active.entries != [] && Freeze(cfg, s.engine).Ok? {
          FreezeStepKeeps(cfg, s);
        }
      case FlushNow(now) =>
        if s.pc.Ready? && s.engine.frozen != [] && s.engine.generations != [] {
          FlushStepKeeps(cfg, s, now);
        }
      case MarkFlushed =>
        if s.pc.TableWritten? {
          MarkKeeps(cfg, s);
        }
      case RemoveOne(segment) =>
        if s.pc.Removing? {
          RemoveKeeps(cfg, s, segment);
        }
      case DoneRemoving =>
        if s.pc.Removing? {
          DoneKeeps(cfg, s);
        }
      case CompactNow(now) =>
        if s.pc.Ready? {
          CompactStepKeeps(cfg, s, now);
        }
      case InsertNow =>
    }
  }

  /** The write misplaces its tracker entry: it is admitted, it fills its segment, the entry is made
      after the rotation, and the segment it filled is recorded, but not for its generation. */
  predicate Misplaces(cfg: EngineConfig, s: Lifetime, e: Event) {
    && e.Write? && s.pc.Ready? && (e.op.PutOp? || e.op.DeleteOp?) && Admits(cfg, s, e.op)
    && Exposes(s, Recorded(s, e.rotate, e.raced))
  }

  lemma {:induction false} StepRetains(cfg: EngineConfig, namespace: Bytes, s: Lifetime, e: Event)
    requires Good(cfg, Completed(s)) && FittingEvent(namespace, e) && !Misplaces(cfg, s, e)
    ensures var t := Completed(Advance(cfg, namespace, s, e)); AllPinned(t) && Covered(t)
  {
    hide Sound, AllPinned, Covered, WriteStep, Fits, FlushOldest, MaybeCompact, NewlyClean, Flushed, RemovePart, Exposes, Admits;
    if s.pc.Inserting? {
      InFlight(cfg, namespace, s, e);
    } else if e.Write? {
      if s.pc.Ready? && (e.op.PutOp? || e.op.DeleteOp?) {
        WriteRetains(cfg, namespace, s, e.op, e.rotate, e.raced, e.now);
      }
    } else {
      NothingInFlight(cfg, namespace, s, e);
      var t := Advance(cfg, namespace, s, e);
      match e
      case FreezeNow =>
        if t != s {
          LogUntouched(s, t);
        }
      case FlushNow(now) =>
        if t != s {
          FlushStepKeeps(cfg, s, now);
          LogUntouched(s, t);
        }
      case MarkFlushed =>
        if s.pc.TableWritten? {
          MarkRetains(cfg, s);
        }
      case RemoveOne(segment) =>
        if t != s {
          RemoveRetains(cfg, s, segment);
        }
      case DoneRemoving =>
        if s.pc.Removing? {
          LogUntouched(s, t);
        }
      case CompactNow(now) =>
        if s.pc.Ready? {
          CompactStepKeeps(cfg, s, now);
          LogUntouched(s, t);
        }
      case InsertNow =>
    }
  }

  lemma StartIsGood(cfg: EngineConfig, now: nat)
    ensures Good(cfg, Start(now))
  {
    hide Inv, Chained, GenerationsMatch, Tracked, AllPinned, Covered, Stamped;
    InitHolds(cfg);
    assert LogOf([]) == [];
    StartIsChained(now);
    StartIsTracked(now);
  }

  lemma StartIsChained(now: nat)
    ensures Chained([], Start(now).parts) && Stamped([])
  {
  }

  lemma StartIsTracked(now: nat)
    ensures GenerationsMatch(Start(now)) && Tracked(Start(now)) && AllPinned(Start(now)) && Covered(Start(now))
  {
    hide MaxSeqno;
  }

  lemma {:induction false} RunKeepsSound(cfg: EngineConfig, namespace: Bytes, began: nat, events: seq<Event>)
    requires FittingRun(namespace, events)
    ensures Sound(cfg, Completed(After(cfg, namespace, began, events)))
  {
    if events == [] {
      StartIsGood(cfg, began);
    } else {
      hide Sound, FittingEvent, Advance, Completed;
      var before := events[..|events| - 1];
      assert forall i :: 0 <= i < |before| ==> before[i] == events[i];
      RunKeepsSound(cfg, namespace, began, before);
      StepKeepsSound(cfg, namespace, After(cfg, namespace, began, before), events[|events| - 1]);
    }
  }

  /** No write of the run misplaces its tracker entry, judged by the state it meets. */
  predicate WellPlaced(cfg: EngineConfig, namespace: Bytes, began: nat, events: seq<Event>) {
    forall i :: 0 <= i < |events| ==> !Misplaces(cfg, After(cfg, namespace, began, events[..i]), events[i])
  }

  lemma {:induction false} PrefixPlaced(cfg: EngineConfig, namespace: Bytes, began: nat, events: seq<Event>, n: nat)
    requires n <= |events| && WellPlaced(cfg, namespace, began, events)
    ensures WellPlaced(cfg, namespace, began, events[..n])
  {
    hide Misplaces, After;
    forall i | 0 <= i < n
      ensures !Misplaces(cfg, After(cfg, namespace, began, events[..n][..i]), events[..n][i])
    {
      assert events[..n][..i] == events[..i];
    }
  }

  lemma {:induction false} RunKeepsGood(cfg: EngineConfig, namespace: Bytes, began: nat, events: seq<Event>)
    requires FittingRun(namespace, events) && WellPlaced(cfg, namespace, began, events)
    ensures Good(cfg, Completed(After(cfg, namespace, began, events)))
  {
    if events == [] {
      StartIsGood(cfg, began);
    } else {
      hide Sound, AllPinned, Covered, FittingEvent, Advance, Completed, Misplaces;
      var n := |events| - 1;
      var before := events[..n];
      assert forall i :: 0 <= i < |before| ==> before[i] == events[i];
      PrefixPlaced(cfg, namespace, began, events, n);
      RunKeepsGood(cfg, namespace, began, before);
      StepKeepsSound(cfg, namespace, After(cfg, namespace, began, before), events[n]);
      StepRetains(cfg, namespace, After(cfg, namespace, began, before), events[n]);
    }
  }

  /** Retention, in every run of the first lifetime: a removal takes only entries that are in a
      table, and so every entry that is in none stays in a live segment. */
  lemma {:induction false} NoUnflushedEntryIsRemoved(cfg: EngineConfig, namespace: Bytes, began: nat, events: seq<Event>, e: Event)
    requires FittingRun(namespace, events) && WellPlaced(cfg, namespace, began, events)
    ensures var s := After(cfg, namespace, began, events); var t := Advance(cfg, namespace, s, e);
            && (forall i :: s.engine.manifest.lastFlushed <= i < |s.appended| ==> Live(s.parts, i))
            && (e.RemoveOne? ==> forall p :: p in s.parts && p !in t.parts ==> AllFlushed(s, p))
  {
    RunKeepsGood(cfg, namespace, began, events);
    var s := After(cfg, namespace, began, events);
    hide After, Sound, AllPinned, RemovePart, AllFlushed;
    CompletedCovers(s);
    if e.RemoveOne? && s.pc.Removing? && e.segment in s.pc.segments && Clean(s.dirty, e.segment) {
      RemoveRetains(cfg, s, e.segment);
    }
  }

  lemma CompletedCovers(s: Lifetime)
    ensures Covered(Completed(s)) <==> Covered(s)
  {
    if s.pc.Inserting? {
      AcceptLeaves(s.engine, s.pc.entry, s.pc.token);
    }
  }
}
