/** The first lifetime of an engine with its log, segment retention, and recovery after a crash
    (crates/flushdb-engine/src/engine.rs, crates/flushdb-engine/src/recovery.rs,
    crates/flushdb-wal/src/wal_manager.rs). Steps are fine enough that a crash may fall between a log
    append and the memtable insert of a write, between a flush and its log cleanup, or between two
    removals. */
module Recovery {
  import opened Wrappers
  import opened ByteStrings
  import opened CompositeKeys
  import opened Entries
  import opened Manifests
  import opened Compaction
  import opened Engine
  import opened WalEntries
  import opened WalSegments
  import opened WalReplay
  import opened DirtySegments

  // --- State ---

  datatype Pc =
    | Ready
    | Inserting(entry: Entry, token: Token)
    | TableWritten(generation: nat)
    | Removing(segments: set<nat>)

  /** The engine, the live segments (the last one is current) and the tracker; then the history of
      log appends and the generation each was written under. */
  datatype Lifetime = Lifetime(
    engine: State,
    parts: seq<Part>,
    dirty: Dirty,
    pc: Pc,
    appended: seq<WalEntry>,
    generations: seq<nat>)

  /** An engine opened on an empty directory. */
  function Start(now: nat): Lifetime {
    Lifetime(Init(), [Part(1, 1, now, [], [])], map[], Ready, [], [])
  }

  datatype Event =
    | Write(op: Op, rotate: bool, raced: bool, now: nat)
    | InsertNow
    | FreezeNow
    | FlushNow(now: nat)
    | MarkFlushed
    | RemoveOne(segment: nat)
    | DoneRemoving
    | CompactNow(now: nat)

  /** `WalEntry::from_memtable_entry`, stamped with the log's own counter. */
  function LogEntry(namespace: Bytes, e: Entry, token: Token, seqno: nat): WalEntry {
    WalEntry(seqno, e.kind, namespace, RecordId(e.key), ItemKey(e.key), e.value, e.metadata, token)
  }

  /** Appends to the current segment; the log may then rotate. */
  function AppendPart(parts: seq<Part>, w: WalEntry, rotate: bool, now: nat): seq<Part>
    requires parts != []
  {
    var n := |parts| - 1;
    var grown := parts[n := parts[n].(es := parts[n].es + [w])];
    if rotate then grown + [Part(parts[n].number + 1, w.seqno + 1, now, [], [])] else grown
  }

  /** The write is admitted: no stall, a well-formed key, no known token, a sequence number left. */
  predicate Admits(cfg: EngineConfig, s: Lifetime, op: Op)
    requires op.PutOp? || op.DeleteOp?
  {
    s.parts != [] && |s.appended| + 2 < U64 && !Stalled(cfg, s.engine, op.env) && Request(s.engine, op).Ok?
  }

  /** A put or delete up to its log append and tracker entry. The tracker entry names the segment that
      was current when it was made; `raced` says that a rotation came in between. */
  function WriteStep(cfg: EngineConfig, namespace: Bytes, s: Lifetime, op: Op, rotate: bool, raced: bool, now: nat): Lifetime
    requires op.PutOp? || op.DeleteOp?
  {
    if !Admits(cfg, s, op) then s
    else
      var (e, token) := Request(s.engine, op).value;
      var w := LogEntry(namespace, e, token, |s.appended| + 1);
      var parts := AppendPart(s.parts, w, rotate, now);
      var recorded := if raced then parts[|parts| - 1].number else s.parts[|s.parts| - 1].number;
      s.(parts := parts, dirty := Record(s.dirty, recorded, s.engine.generation, 0), pc := Inserting(e, token),
         appended := s.appended + [w], generations := s.generations + [s.engine.generation])
  }

  /** The write in flight, if there is one, with its memtable insert done. */
  function Completed(s: Lifetime): Lifetime {
    if s.pc.Inserting? then s.(engine := Accept(s.engine, s.pc.entry, s.pc.token), pc := Ready) else s
  }

  /** `cleanup_segments` for one segment: never the current one, never one that is dirty again. */
  function RemovePart(parts: seq<Part>, segment: nat): seq<Part> {
    if parts == [] then []
    else if |parts| > 1 && parts[0].number == segment then parts[1..]
    else [parts[0]] + RemovePart(parts[1..], segment)
  }

  function Advance(cfg: EngineConfig, namespace: Bytes, s: Lifetime, e: Event): Lifetime {
    match e
    case Write(op, rotate, raced, now) =>
      if s.pc.Ready? && (op.PutOp? || op.DeleteOp?) then WriteStep(cfg, namespace, s, op, rotate, raced, now) else s
    case InsertNow => Completed(s)
    case FreezeNow =>
      if s.pc.Ready? && s.engine.active.entries != [] && Freeze(cfg, s.engine).Ok? then s.(engine := Freeze(cfg, s.engine).value) else s
    case FlushNow(now) =>
      if s.pc.Ready? && s.engine.frozen != [] && s.engine.generations != [] && FlushOldest(cfg, s.engine, now).1.Ok? then
        s.(engine := FlushOldest(cfg, s.engine, now).0, pc := TableWritten(s.engine.generations[|s.engine.generations| - 1]))
      else s
    case MarkFlushed =>
      if s.pc.TableWritten? then
        s.(dirty := Flushed(s.dirty, s.pc.generation), pc := Removing(NewlyClean(s.dirty, s.pc.generation)))
      else s
    case RemoveOne(segment) =>
      if s.pc.Removing? && segment in s.pc.segments && Clean(s.dirty, segment)
         && s.parts != [] && segment != s.parts[|s.parts| - 1].number then
        s.(parts := RemovePart(s.parts, segment), dirty := s.dirty - {segment}, pc := Removing(s.pc.segments - {segment}))
      else s
    case DoneRemoving => if s.pc.Removing? then s.(pc := Ready) else s
    case CompactNow(now) => if s.pc.Ready? then s.(engine := MaybeCompact(cfg, s.engine, now).0) else s
  }

  function After(cfg: EngineConfig, namespace: Bytes, began: nat, events: seq<Event>): Lifetime {
    if events == [] then Start(began)
    else Advance(cfg, namespace, After(cfg, namespace, began, events[..|events| - 1]), events[|events| - 1])
  }

  // --- Recovery ---

  function WithTorn(parts: seq<Part>, torn: Bytes): seq<Part> {
    if parts == [] then [] else parts[|parts| - 1 := parts[|parts| - 1].(torn := torn)]
  }

  /** The files a crash leaves: the live segments, the last one with a torn tail. */
  function Files(crc: Bytes -> nat, parts: seq<Part>, torn: Bytes): seq<Bytes> {
    var left := WithTorn(parts, torn);
    seq(|left|, i requires 0 <= i < |left| => FileOf(crc, left[i]))
  }

  /** `to_memtable_entry` */
  function EntryOf(w: WalEntry): Entry {
    Entry(Join(w.record, w.item), w.value, w.metadata, w.kind, w.seqno)
  }

  /** The replay loop: the memtable renumbers; a repeated token is skipped. */
  function ReplayInto(mt: Memtable, es: seq<WalEntry>): Result<Memtable>
    decreases |es|
  {
    if es == [] then Ok(mt)
    else
      var before :- ReplayInto(mt, es[..|es| - 1]);
      var w := es[|es| - 1];
      var key :- NewKey(w.record, w.item);
      if KnownToken([before], w.token) then Ok(before) else Ok(InsertEntry(before, EntryOf(w), w.token))
  }

  function MaxReplayed(flushed: nat, es: seq<WalEntry>): nat {
    if es == [] then flushed
    else
      var before := MaxReplayed(flushed, es[..|es| - 1]);
      if es[|es| - 1].seqno > before then es[|es| - 1].seqno else before
  }

  /** `recover`: the manifest's levels, a fresh memtable list, and every log entry from the last
      flushed sequence on. */
  function Recover(crc: Bytes -> nat, m: Manifest, files: seq<Bytes>, freshId: nat): Result<State> {
    var es :- ReplayRest(crc, files, 0, Some(m.lastFlushed)).Collected();
    var active :- ReplayInto(EmptyMemtable(m.lastFlushed + 1), es);
    Ok(State(active, [], [], m, RebuildLevels(m), MaxReplayed(m.lastFlushed, es) + 1, 0, freshId))
  }

  /** The same as a loop over the replayed entries. */
  method RecoverLoop(crc: Bytes -> nat, m: Manifest, files: seq<Bytes>, freshId: nat) returns (r: Result<State>)
    ensures r == Recover(crc, m, files, freshId)
  {
    hide ReplayRest, ReplayInto, MaxReplayed, RebuildLevels;
    var es :- Replay(crc, files, Some(m.lastFlushed));
    var active, highest := ReplayLoop(m.lastFlushed, es);
    if active.Err? {
      return Err(active.error);
    }
    return Ok(State(active.value, [], [], m, RebuildLevels(m), highest + 1, 0, freshId));
  }

  method ReplayLoop(flushed: nat, es: seq<WalEntry>) returns (r: Result<Memtable>, highest: nat)
    ensures r == ReplayInto(EmptyMemtable(flushed + 1), es)
    ensures r.Ok? ==> highest == MaxReplayed(flushed, es)
  {
    hide NewKey, InsertEntry, KnownToken, EmptyMemtable;
    var active := EmptyMemtable(flushed + 1);
    highest := flushed;
    for i := 0 to |es|
      invariant ReplayInto(EmptyMemtable(flushed + 1), es[..i]) == Ok(active)
      invariant highest == MaxReplayed(flushed, es[..i])
    {
      var w := es[i];
      assert es[..i + 1][..i] == es[..i];
      if w.seqno > highest {
        highest := w.seqno;
      }
      var key := NewKey(w.record, w.item);
      if key.Err? {
        FailureSticks(EmptyMemtable(flushed + 1), es, i);
        return Err(key.error), highest;
      }
      if !KnownToken([active], w.token) {
        active := InsertEntry(active, EntryOf(w), w.token);
      }
    }
    assert es[..|es|] == es;
    r := Ok(active);
  }

  lemma {:induction false} FailureSticks(mt: Memtable, es: seq<WalEntry>, i: nat)
    requires i < |es| && ReplayInto(mt, es[..i]).Ok? && NewKey(es[i].record, es[i].item).Err?
    ensures ReplayInto(mt, es) == Err(NewKey(es[i].record, es[i].item).error)
  {
    hide NewKey, InsertEntry, KnownToken;
    if i == |es| - 1 {
      assert es[..|es| - 1] == es[..i];
    } else {
      assert es[..|es| - 1][..i] == es[..i];
      FailureSticks(mt, es[..|es| - 1], i);
    }
  }
}
