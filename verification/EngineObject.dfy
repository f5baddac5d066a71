/** The engine as an object: methods that update its fields in place, each tied to the state machine
    and to the history of accepted writes. */
module EngineObject {
  import opened Wrappers
  import opened ByteStrings
  import opened CompositeKeys
  import opened Entries
  import opened Tables
  import opened Manifests
  import opened Compaction
  import opened RangeTombstones
  import E = Engine
  import I = EngineInvariant
  import R = EngineReads
  import BloomFilters
  import SortedRuns

  class Engine {
    const cfg: E.EngineConfig
    var active: E.Memtable
    var frozen: seq<E.Memtable>
    var generations: seq<nat>
    var manifest: Manifest
    var levels: Levels
    var nextSeqno: nat
    var generation: nat
    var nextId: nat
    ghost var log: seq<Entry>

    ghost function Abs(): E.State
      reads this
    {
      E.State(active, frozen, generations, manifest, levels, nextSeqno, generation, nextId)
    }

    ghost predicate Valid()
      reads this
    {
      I.Inv(cfg, Abs(), log)
    }

    constructor (cfg: E.EngineConfig)
      ensures Valid() && Abs() == E.Init() && log == [] && this.cfg == cfg
    {
      this.cfg := cfg;
      active, frozen, generations := E.EmptyMemtable(1), [], [];
      manifest, levels := EmptyManifest(0), [[], [], [], []];
      nextSeqno, generation, nextId := 1, 0, 0;
      log := [];
      new;
      I.InitHolds(cfg);
    }

    /** `put`, `delete` and `delete_range`. */
    method Write(op: E.Op) returns (r: Result<()>)
      requires Valid() && (op.PutOp? || op.DeleteOp? || op.DeleteRangeOp?)
      modifies this
      ensures (Abs(), r) == E.Step(cfg, old(Abs()), op)
      ensures Valid() && log == old(log) + E.Logged(cfg, old(Abs()), op)
    {
      I.WriteKeeps(cfg, Abs(), log, op);
      ghost var start := Abs();
      hide I.Inv;
      if |manifest.levels[0]| >= cfg.compaction.l0Stop || op.env.memoryFull {
        return Err(ResourceExhausted);
      }
      var request := E.Request(E.State(active, frozen, generations, manifest, levels, nextSeqno, generation, nextId), op);
      if request.Err? {
        return Err(request.error);
      }
      var (e, token) := request.value;
      nextSeqno := nextSeqno + 1;
      active := E.InsertEntry(active, e, token);
      log := log + [e];
      assert Abs() == E.Accept(start, e, token);
      if !op.env.freezeDue {
        return Ok(());
      }
      if |frozen| >= cfg.maxFrozen {
        return Err(ResourceExhausted);
      }
      FreezeActive();
      r := FlushStep(op.env.now);
    }

    method FreezeActive()
      requires |frozen| < cfg.maxFrozen
      modifies this`active, this`frozen, this`generations, this`generation
      ensures E.Freeze(cfg, old(Abs())) == Ok(Abs())
    {
      frozen := [active] + frozen;
      generations := [generation] + generations;
      active := E.EmptyMemtable(active.nextSeqno);
      generation := generation + 1;
    }

    /** Freezing a nonempty active memtable, as maintenance does by age. */
    method Freeze() returns (r: Result<()>)
      requires Valid()
      modifies this
      ensures (Abs(), r) == E.Step(cfg, old(Abs()), E.FreezeOp)
      ensures Valid() && log == old(log)
    {
      I.StepKeeps(cfg, Abs(), log, E.FreezeOp);
      assert log + [] == log;
      hide I.Inv;
      if active.entries == [] {
        return Ok(());
      }
      if |frozen| >= cfg.maxFrozen {
        return Err(ResourceExhausted);
      }
      FreezeActive();
      return Ok(());
    }

    /** `maybe_flush` */
    method Flush(now: nat) returns (r: Result<()>)
      requires Valid()
      modifies this
      ensures (Abs(), r) == E.Step(cfg, old(Abs()), E.FlushOp(now))
      ensures Valid() && log == old(log)
    {
      I.StepKeeps(cfg, Abs(), log, E.FlushOp(now));
      assert log + [] == log;
      hide I.Inv;
      if frozen == [] {
        return Ok(());
      }
      r := FlushStep(now);
    }

    /** `flush_frozen`: write the oldest frozen memtable as an L0 table, commit it, then compact. */
    method FlushStep(now: nat) returns (r: Result<()>)
      modifies this
      ensures (Abs(), r) == E.FlushFrozen(cfg, old(Abs()), now)
      ensures log == old(log)
    {
      var flushed;
      flushed, r := FlushOldest(cfg, E.State(active, frozen, generations, manifest, levels, nextSeqno, generation, nextId), now);
      KeptByFlush(cfg, Abs(), now);
      hide E.FlushOldest, E.MaybeCompact;
      frozen, generations, manifest, levels, nextId := flushed.frozen, flushed.generations, flushed.manifest, flushed.levels, flushed.nextId;
      if r.Ok? {
        r := Compact(now);
      }
    }

    /** `maybe_compact` */
    method MaybeCompact(now: nat) returns (r: Result<()>)
      requires Valid()
      modifies this
      ensures (Abs(), r) == E.Step(cfg, old(Abs()), E.CompactOp(now))
      ensures Valid() && log == old(log)
    {
      I.StepKeeps(cfg, Abs(), log, E.CompactOp(now));
      assert log + [] == log;
      hide I.Inv;
      r := Compact(now);
    }

    method Compact(now: nat) returns (r: Result<()>)
      modifies this`manifest, this`levels, this`nextId
      ensures (Abs(), r) == E.MaybeCompact(cfg, old(Abs()), now)
    {
      var tasks := CheckTriggers(cfg.compaction, manifest.levels);
      hide CheckTriggers, Execute;
      var i := 0;
      assert tasks[0..] == tasks;
      while i < |tasks|
        invariant 0 <= i <= |tasks|
        invariant E.RunTasks(cfg, Abs(), tasks[i..], now) == E.MaybeCompact(cfg, old(Abs()), now)
      {
        assert tasks[i..][0] == tasks[i] && tasks[i..][1..] == tasks[i + 1..];
        var m := ExecuteTask(tasks[i], now);
        if m.Err? {
          return Err(m.error);
        }
        manifest := m.value;
        levels := E.RebuildLevels(manifest);
        nextId := nextId + IdsUsed(cfg.compaction, tasks[i]);
        i := i + 1;
      }
      assert tasks[i..] == [];
      return Ok(());
    }

    /** `execute` for the only writer: build the update, commit it if its tables are still there. */
    method ExecuteTask(task: Task, now: nat) returns (r: Result<Manifest>)
      ensures r == Execute(cfg.compaction, task, manifest, nextId, now)
    {
      var u;
      if IsTrivialMove(task) {
        u := Update(ByCompaction, At(task.target, Moved(task.inputs, now)), IdsAt(task.source, task.inputs), None, manifest.writerEpoch, manifest.compactorEpoch);
      } else {
        var outputs, _ := MergeAndWrite(cfg.compaction, task, nextId, now);
        u := Update(ByCompaction, At(task.target, outputs), IdsAt(task.source, task.inputs) + IdsAt(task.target, task.targets), None, manifest.writerEpoch, manifest.compactorEpoch);
      }
      assert u == CompactionUpdate(cfg.compaction, task, manifest, nextId, now);
      hide CompactionUpdate, ValidUpdate, Apply;
      if !ValidUpdate(u, manifest) {
        return Err(InvalidArgument);
      }
      r := ApplyLoop(u, manifest, now);
    }

    /** `point_read`: memtables newest first, then the best answer of all levels. Its result is the
        last accepted write to the key, unless that write is obscured by a block boundary. */
    method PointRead(k: Bytes) returns (r: Option<Entry>)
      requires Valid()
      ensures r == E.PointRead(cfg, Abs(), k)
      ensures !R.Obscured(Abs(), k) ==> r == R.ReadSpec(Abs(), log, k)
    {
      if !R.Obscured(Abs(), k) {
        R.ReadIsLastWrite(cfg, Abs(), log, k);
      }
      hide I.Inv, R.Obscured, R.ReadSpec;
      var buffered := SearchMemtables([active] + frozen, k);
      if buffered.Some? {
        return Shown(k, buffered.value);
      }
      var best := SearchLevels(k);
      if best.None? {
        return None;
      }
      return Shown(k, best.value);
    }

    function Shown(k: Bytes, e: Entry): Option<Entry>
      reads this
    {
      if e.IsTombstone() || E.ListCovers([active] + frozen, RecordId(k), ItemKey(k), e.seqno) then None else Some(e)
    }

    method SearchLevels(k: Bytes) returns (best: Option<Entry>)
      ensures best == Newest(E.Answers(cfg.compaction.sst, levels, k), k)
    {
      best := None;
      ghost var seen := [];
      var l := 0;
      while l < LEVELS
        invariant 0 <= l <= LEVELS
        invariant seen == AnswersUpTo(cfg.compaction.sst, levels, k, l)
        invariant best == Newest(seen, k)
      {
        var answers := LevelSearch(cfg.compaction.sst, levels[l], l == 0, k);
        R.AnswersAreStored(cfg.compaction.sst, levels[l], l == 0, k);
        best := KeepBest(best, seen, answers, k);
        seen := seen + answers;
        l := l + 1;
      }
      assert AnswersUpTo(cfg.compaction.sst, levels, k, 4) == E.Answers(cfg.compaction.sst, levels, k) by {
        AnswersOfAll(cfg.compaction.sst, levels, k);
      }
    }
  }

  method SearchMemtables(mts: seq<E.Memtable>, k: Bytes) returns (r: Option<Entry>)
    ensures r == E.ListGet(mts, k)
  {
    var i := 0;
    assert mts[0..] == mts;
    while i < |mts|
      invariant 0 <= i <= |mts|
      invariant E.ListGet(mts[i..], k) == E.ListGet(mts, k)
    {
      assert mts[i..][0] == mts[i] && mts[i..][1..] == mts[i + 1..];
      r := E.MemtableGet(mts[i], k);
      if r.Some? {
        return;
      }
      i := i + 1;
    }
    r := None;
  }

  /** `FlushPipeline::flush`: the table of a frozen memtable and the manifest that lists it. */
  method WriteAndCommit(cfg: E.EngineConfig, es: seq<Entry>, manifest: Manifest, id: nat, now: nat) returns (r: Result<(Manifest, Table)>)
    ensures es == [] ==> r == Err(InvalidArgument)
    ensures es != [] ==>
              var t := WriteTable(cfg.compaction.sst, id, es, now);
              var u := E.FlushUpdate(manifest, t, E.MaxSeqno(es));
              r == if !ValidUpdate(u, manifest) then Err(InvalidArgument)
                   else match Apply(u, manifest, now) case Err(x) => Err(x) case Ok(m) => Ok((m, t))
  {
    if es == [] {
      return Err(InvalidArgument);
    }
    hide WriteTable, ValidUpdate, Apply, E.FlushUpdate, E.MaxSeqno;
    var maxSeqno := MaxSeqnoLoop(es);
    var t := WriteTable(cfg.compaction.sst, id, es, now);
    var u := E.FlushUpdate(manifest, t, maxSeqno);
    if !ValidUpdate(u, manifest) {
      return Err(InvalidArgument);
    }
    var m :- ApplyLoop(u, manifest, now);
    return Ok((m, t));
  }

  method FlushOldest(cfg: E.EngineConfig, s: E.State, now: nat) returns (flushed: E.State, r: Result<()>)
    ensures (flushed, r) == E.FlushOldest(cfg, s, now)
  {
    if s.frozen == [] {
      return s, Err(InvalidArgument);
    }
    var (popped, mt) := E.PopOldest(s);
    var written := WriteAndCommit(cfg, mt.entries, s.manifest, s.nextId, now);
    hide WriteTable, ValidUpdate, Apply, E.FlushUpdate, E.MaxSeqno;
    if written.Err? {
      return popped, Err(written.error);
    }
    var (m, t) := written.value;
    return popped.(manifest := m, levels := s.levels[0 := s.levels[0] + [t]], nextId := s.nextId + 1), Ok(());
  }

  lemma KeptByFlush(cfg: E.EngineConfig, s: E.State, now: nat)
    ensures var after := E.FlushOldest(cfg, s, now).0;
            after.active == s.active && after.nextSeqno == s.nextSeqno && after.generation == s.generation
  {
    hide WriteTable, ValidUpdate, Apply, E.FlushUpdate, E.MaxSeqno;
  }

  lemma NewestSnoc(s: seq<Entry>, e: Entry, k: Bytes)
    requires e.key == k
    ensures Newest(s + [e], k) == if Newest(s, k).Some? && Newest(s, k).value.seqno >= e.seqno then Newest(s, k) else Some(e)
  {
    assert (s + [e])[..|s|] == s;
  }

  /** The inner loop of the search: keep the first answer with the highest sequence number. */
  method KeepBest(start: Option<Entry>, ghost seen: seq<Entry>, answers: seq<Entry>, k: Bytes) returns (best: Option<Entry>)
    requires start == Newest(seen, k) && forall e :: e in answers ==> e.key == k
    ensures best == Newest(seen + answers, k)
  {
    hide Newest;
    best := start;
    ghost var acc := seen;
    var i := 0;
    while i < |answers|
      invariant 0 <= i <= |answers|
      invariant acc == seen + answers[..i]
      invariant best == Newest(acc, k)
    {
      var e := answers[i];
      assert e in answers;
      NewestSnoc(acc, e, k);
      if best.None? || best.value.seqno < e.seqno {
        best := Some(e);
      }
      acc := acc + [e];
      i := i + 1;
    }
    assert answers[..i] == answers;
  }

  function AnswersUpTo(sst: SstConfig, levels: Levels, k: Bytes, n: nat): seq<Entry>
    requires n <= LEVELS
  {
    if n == 0 then [] else AnswersUpTo(sst, levels, k, n - 1) + E.LevelAnswers(sst, levels[n - 1], n == 1, k)
  }

  lemma AnswersOfAll(sst: SstConfig, levels: Levels, k: Bytes)
    ensures AnswersUpTo(sst, levels, k, 4) == E.Answers(sst, levels, k)
  {
    hide E.LevelAnswers;
    assert AnswersUpTo(sst, levels, k, 1) == E.LevelAnswers(sst, levels[0], true, k);
    assert AnswersUpTo(sst, levels, k, 3) == AnswersUpTo(sst, levels, k, 2) + E.LevelAnswers(sst, levels[2], false, k);
  }

  /** The candidates of one level, asked one after the other. */
  method LevelSearch(sst: SstConfig, ts: seq<Table>, overlapping: bool, k: Bytes) returns (answers: seq<Entry>)
    ensures answers == E.LevelAnswers(sst, ts, overlapping, k)
  {
    answers := [];
    if !overlapping {
      var t := FindTable(ts, k);
      if t.Some? {
        answers := E.Answer(Get(sst, t.value, k));
      }
      return;
    }
    var i := 0;
    assert ts[0..] == ts;
    while i < |ts|
      invariant 0 <= i <= |ts|
      invariant answers + E.LevelAnswers(sst, ts[i..], true, k) == E.LevelAnswers(sst, ts, true, k)
    {
      assert ts[i..][0] == ts[i] && ts[i..][1..] == ts[i + 1..];
      if BloomFilters.MaybeContains(sst.hash, ts[i].filter, RecordId(k)) {
        answers := answers + E.Answer(Get(sst, ts[i], k));
      }
      i := i + 1;
    }
    assert ts[i..] == [];
  }

  method MaxSeqnoLoop(es: seq<Entry>) returns (m: nat)
    ensures m == E.MaxSeqno(es)
  {
    m := 0;
    var i := 0;
    while i < |es|
      invariant 0 <= i <= |es|
      invariant m == E.MaxSeqno(es[..i])
    {
      assert es[..i + 1][..i] == es[..i];
      if es[i].seqno > m {
        m := es[i].seqno;
      }
      i := i + 1;
    }
    assert es[..i] == es;
  }
}
