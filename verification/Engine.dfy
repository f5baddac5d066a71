/** The storage engine as a state machine: writes, freezes, flushes, compactions and point reads
    (crates/flushdb-engine/src/engine.rs, memtable.rs, memtable_list.rs, flush.rs, read_path.rs). */
module Engine {
  import opened Wrappers
  import opened ByteStrings
  import opened CompositeKeys
  import opened Entries
  import opened Tables
  import opened Manifests
  import opened Compaction
  import opened RangeTombstones
  import BloomFilters
  import SortedRuns

  datatype EngineConfig = EngineConfig(compaction: Config, maxFrozen: nat)

  type Token = Bytes

  const NO_TOKEN: Token := [0, 0, 0, 0, 0, 0, 0, 0, 0, 0, 0, 0, 0, 0, 0, 0, 0, 0, 0, 0, 0, 0, 0, 0]

  // --- Memtables ---

  datatype Memtable = Memtable(entries: seq<Entry>, tombstones: seq<RangeTombstone>, tokens: set<Token>, nextSeqno: nat)

  function EmptyMemtable(start: nat): Memtable {
    Memtable([], [], {}, start)
  }

  /** The range a range-delete entry stands for; its item key is the prefix byte and the start. */
  function TombstoneOf(e: Entry): RangeTombstone {
    var item := ItemKey(e.key);
    RangeTombstone(RecordId(e.key), if item == [] then [] else item[1..], e.value, e.seqno)
  }

  /** `insert_prechecked`: the memtable numbers the entry itself. */
  function InsertEntry(mt: Memtable, e: Entry, token: Token): Memtable {
    var numbered := e.(seqno := mt.nextSeqno);
    Memtable(
      SortedRuns.Insert(mt.entries, numbered),
      if e.kind == RangeDelete then mt.tombstones + [TombstoneOf(numbered)] else mt.tombstones,
      if token == NO_TOKEN then mt.tokens else mt.tokens + {token},
      mt.nextSeqno + 1)
  }

  /** `Memtable::get`: the newest version, unless a tombstone of the same memtable hides it. */
  function MemtableGet(mt: Memtable, k: Bytes): Option<Entry> {
    var e := SortedRuns.Lookup(mt.entries, k);
    if e.Some? && Covers(mt.tombstones, RecordId(k), ItemKey(k), e.value.seqno) then None else e
  }

  /** `MemtableList::get` over the memtables, newest first. */
  function ListGet(mts: seq<Memtable>, k: Bytes): Option<Entry> {
    if mts == [] then None
    else
      var e := MemtableGet(mts[0], k);
      if e.Some? then e else ListGet(mts[1..], k)
  }

  predicate ListCovers(mts: seq<Memtable>, record: Bytes, item: Bytes, seqno: nat) {
    exists i :: 0 <= i < |mts| && Covers(mts[i].tombstones, record, item, seqno)
  }

  predicate KnownToken(mts: seq<Memtable>, token: Token) {
    token != NO_TOKEN && exists i :: 0 <= i < |mts| && token in mts[i].tokens
  }

  // --- State ---

  datatype State = State(
    active: Memtable,
    frozen: seq<Memtable>,
    generations: seq<nat>,
    manifest: Manifest,
    levels: Levels,
    nextSeqno: nat,
    generation: nat,
    nextId: nat) {

    function Memtables(): seq<Memtable> {
      [active] + frozen
    }
  }

  function Init(): State {
    State(EmptyMemtable(1), [], [], EmptyManifest(0), [[], [], [], []], 1, 0, 0)
  }

  // --- Reads ---

  /** The candidates of one level that answer for `k`: every L0 table that passes its filter, one
      table of a deeper level. */
  function LevelAnswers(sst: SstConfig, ts: seq<Table>, overlapping: bool, k: Bytes): seq<Entry> {
    if overlapping then
      if ts == [] then []
      else
        var rest := LevelAnswers(sst, ts[1..], overlapping, k);
        if !BloomFilters.MaybeContains(sst.hash, ts[0].filter, RecordId(k)) then rest
        else Answer(Get(sst, ts[0], k)) + rest
    else
      var t := FindTable(ts, k);
      if t.None? then [] else Answer(Get(sst, t.value, k))
  }

  function Answer(e: Option<Entry>): seq<Entry> {
    if e.Some? then [e.value] else []
  }

  function Answers(sst: SstConfig, levels: Levels, k: Bytes): seq<Entry> {
    LevelAnswers(sst, levels[0], true, k) + LevelAnswers(sst, levels[1], false, k)
    + LevelAnswers(sst, levels[2], false, k) + LevelAnswers(sst, levels[3], false, k)
  }

  function Visible(s: State, k: Bytes, e: Entry): Option<Entry> {
    if e.IsTombstone() || ListCovers(s.Memtables(), RecordId(k), ItemKey(k), e.seqno) then None else Some(e)
  }

  /** The version `point_read` settles on before looking at tombstones. */
  function Candidate(cfg: EngineConfig, s: State, k: Bytes): Option<Entry> {
    var m := ListGet(s.Memtables(), k);
    if m.Some? then m else Newest(Answers(cfg.compaction.sst, s.levels, k), k)
  }

  function PointRead(cfg: EngineConfig, s: State, k: Bytes): Option<Entry> {
    var c := Candidate(cfg, s, k);
    if c.None? then None else Visible(s, k, c.value)
  }

  // --- Freezing, flushing, compacting ---

  function Freeze(cfg: EngineConfig, s: State): Result<State> {
    if |s.frozen| >= cfg.maxFrozen then Err(ResourceExhausted)
    else Ok(s.(active := EmptyMemtable(s.active.nextSeqno), frozen := [s.active] + s.frozen,
               generations := [s.generation] + s.generations, generation := s.generation + 1))
  }

  function MaxSeqno(es: seq<Entry>): (m: nat)
    ensures forall e :: e in es ==> e.seqno <= m
    ensures es != [] ==> exists e :: e in es && e.seqno == m
  {
    if es == [] then 0
    else
      var last, m := es[|es| - 1], MaxSeqno(es[..|es| - 1]);
      assert es == es[..|es| - 1] + [last];
      if last.seqno > m || |es| == 1 then last.seqno else m
  }

  /** `rebuild_levels` */
  function RebuildLevels(m: Manifest): Levels {
    [m.levels[0], SortByMin(m.levels[1]), SortByMin(m.levels[2]), SortByMin(m.levels[3])]
  }

  /** `maybe_compact`: the planned tasks in order, stopping at the first rejection. */
  function RunTasks(cfg: EngineConfig, s: State, tasks: seq<Task>, now: nat): (State, Result<()>)
    decreases |tasks|
  {
    if tasks == [] then (s, Ok(()))
    else
      match Execute(cfg.compaction, tasks[0], s.manifest, s.nextId, now)
      case Err(e) => (s, Err(e))
      case Ok(m) =>
        var next := s.(manifest := m, levels := RebuildLevels(m), nextId := s.nextId + IdsUsed(cfg.compaction, tasks[0]));
        RunTasks(cfg, next, tasks[1..], now)
  }

  function MaybeCompact(cfg: EngineConfig, s: State, now: nat): (State, Result<()>) {
    RunTasks(cfg, s, CheckTriggers(cfg.compaction, s.manifest.levels), now)
  }

  /** The oldest frozen memtable leaves the list. */
  function PopOldest(s: State): (State, Memtable)
    requires s.frozen != []
  {
    var n := |s.frozen| - 1;
    (s.(frozen := s.frozen[..n], generations := if s.generations == [] then [] else s.generations[..|s.generations| - 1]), s.frozen[n])
  }

  function FlushUpdate(m: Manifest, t: Table, maxSeqno: nat): Update {
    Update(ByFlush, [(0, t)], [], Some(maxSeqno), m.writerEpoch, m.compactorEpoch)
  }

  /** `flush_frozen` without its compaction: write the table, commit it, open it. */
  function FlushOldest(cfg: EngineConfig, s: State, now: nat): (State, Result<()>) {
    if s.frozen == [] then (s, Err(InvalidArgument))
    else
      var (popped, mt) := PopOldest(s);
      if mt.entries == [] then (popped, Err(InvalidArgument))
      else
        var t := WriteTable(cfg.compaction.sst, s.nextId, mt.entries, now);
        var u := FlushUpdate(s.manifest, t, MaxSeqno(mt.entries));
        if !ValidUpdate(u, s.manifest) then (popped, Err(InvalidArgument))
        else
          match Apply(u, s.manifest, now)
          case Err(e) => (popped, Err(e))
          case Ok(m) => (popped.(manifest := m, levels := s.levels[0 := s.levels[0] + [t]], nextId := s.nextId + 1), Ok(()))
  }

  function FlushFrozen(cfg: EngineConfig, s: State, now: nat): (State, Result<()>) {
    var (flushed, r) := FlushOldest(cfg, s, now);
    if r.Err? then (flushed, r) else MaybeCompact(cfg, flushed, now)
  }

  function FreezeAndFlush(cfg: EngineConfig, s: State, now: nat): (State, Result<()>) {
    match Freeze(cfg, s)
    case Err(e) => (s, Err(e))
    case Ok(frozen) => FlushFrozen(cfg, frozen, now)
  }

  // --- Operations ---

  /** What the environment decides during one call: whether the memtable is due (by size or age),
      whether memory is exhausted, and the clock. */
  datatype Env = Env(freezeDue: bool, memoryFull: bool, now: nat)

  datatype Op =
    | PutOp(record: Bytes, item: Bytes, value: Bytes, metadata: Bytes, token: Token, env: Env)
    | DeleteOp(record: Bytes, item: Bytes, env: Env)
    | DeleteRangeOp(record: Bytes, start: Bytes, end: Bytes, env: Env)
    | FreezeOp
    | FlushOp(now: nat)
    | CompactOp(now: nat)

  /** The entry an operation asks to write, or the error that stops it before the log. */
  function Request(s: State, op: Op): Result<(Entry, Token)>
    requires op.PutOp? || op.DeleteOp? || op.DeleteRangeOp?
  {
    match op
    case PutOp(record, item, value, metadata, token, _) =>
      var k :- NewKey(record, item);
      if KnownToken(s.Memtables(), token) then Err(DuplicateToken)
      else Ok((Entry(k, value, metadata, Put, s.nextSeqno), token))
    case DeleteOp(record, item, _) =>
      var k :- NewKey(record, item);
      Ok((Entry(k, [], [], Delete, s.nextSeqno), NO_TOKEN))
    case DeleteRangeOp(record, start, end, _) =>
      var k :- RangeTombstoneKey(record, start);
      Ok((Entry(k, end, [], RangeDelete, s.nextSeqno), NO_TOKEN))
  }

  predicate Stalled(cfg: EngineConfig, s: State, env: Env) {
    |s.manifest.levels[0]| >= cfg.compaction.l0Stop || env.memoryFull
  }

  function Accept(s: State, e: Entry, token: Token): State {
    s.(nextSeqno := s.nextSeqno + 1, active := InsertEntry(s.active, e, token))
  }

  function Write(cfg: EngineConfig, s: State, op: Op): (State, Result<()>)
    requires op.PutOp? || op.DeleteOp? || op.DeleteRangeOp?
  {
    if Stalled(cfg, s, op.env) then (s, Err(ResourceExhausted))
    else
      match Request(s, op)
      case Err(e) => (s, Err(e))
      case Ok((e, token)) =>
        var accepted := Accept(s, e, token);
        if op.env.freezeDue then FreezeAndFlush(cfg, accepted, op.env.now) else (accepted, Ok(()))
  }

  function Step(cfg: EngineConfig, s: State, op: Op): (State, Result<()>) {
    match op
    case FreezeOp =>
      if s.active.entries == [] then (s, Ok(()))
      else (match Freeze(cfg, s) case Err(e) => (s, Err(e)) case Ok(t) => (t, Ok(())))
    case FlushOp(now) => if s.frozen == [] then (s, Ok(())) else FlushFrozen(cfg, s, now)
    case CompactOp(now) => MaybeCompact(cfg, s, now)
    case _ => Write(cfg, s, op)
  }

  function Run(cfg: EngineConfig, ops: seq<Op>): State {
    if ops == [] then Init() else Step(cfg, Run(cfg, ops[..|ops| - 1]), ops[|ops| - 1]).0
  }

  /** The writes an operation adds to the history, decided by the state it meets. */
  function Logged(cfg: EngineConfig, s: State, op: Op): seq<Entry> {
    if !(op.PutOp? || op.DeleteOp? || op.DeleteRangeOp?) || Stalled(cfg, s, op.env) then []
    else match Request(s, op) case Err(_) => [] case Ok((e, _)) => [e]
  }

  /** Every accepted write of a run, oldest first. */
  function History(cfg: EngineConfig, ops: seq<Op>): seq<Entry> {
    if ops == [] then []
    else History(cfg, ops[..|ops| - 1]) + Logged(cfg, Run(cfg, ops[..|ops| - 1]), ops[|ops| - 1])
  }
}
