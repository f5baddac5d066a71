/** What a caller's operations mean, taken from their own arguments: which writes are accepted, what
    each one logs, and the map they stand for (crates/flushdb-engine/src/engine.rs). */
module Operations {
  import opened Wrappers
  import opened ByteStrings
  import opened CompositeKeys
  import opened Entries
  import opened Manifests
  import opened Tables
  import opened RangeTombstones
  import opened Engine
  import opened EngineInvariant
  import opened EngineReads
  import opened EngineTheorems
  import C = Compaction
  import T = Tiers
  import SortedRuns

  // --- Which writes are accepted ---

  predicate IsWrite(op: Op) {
    op.PutOp? || op.DeleteOp? || op.DeleteRangeOp?
  }

  /** How long the item part of the written key is. */
  function ItemLength(op: Op): nat
    requires IsWrite(op)
  {
    match op
    case PutOp(_, item, _, _, _, _) => |item|
    case DeleteOp(_, item, _) => |item|
    case DeleteRangeOp(_, start, _, _) => 1 + |start|
  }

  /** An earlier accepted put that is not yet flushed carries the token. The writes accepted so far are
      numbered 1, 2, ... */
  ghost predicate TokenInUse(flushed: nat, earlier: seq<Op>, token: Token) {
    exists i :: flushed <= i < |earlier| && earlier[i].PutOp? && earlier[i].token == token
  }

  /** A write is accepted if the engine does not stall it, its key is well formed, and its token, if it has
      one, is not in use. */
  ghost predicate Admits(cfg: EngineConfig, s: State, earlier: seq<Op>, op: Op)
    requires IsWrite(op)
  {
    && |s.manifest.levels[0]| < cfg.compaction.l0Stop && !op.env.memoryFull
    && ValidRecordId(op.record) && ItemLength(op) <= MAX_ITEM_KEY_LEN
    && (op.PutOp? && op.token != NO_TOKEN ==> !TokenInUse(s.manifest.lastFlushed, earlier, op.token))
  }

  /** The accepted writes of a run, oldest first. */
  ghost function Accepted(cfg: EngineConfig, ops: seq<Op>): seq<Op> {
    if ops == [] then []
    else
      var before, op := Accepted(cfg, ops[..|ops| - 1]), ops[|ops| - 1];
      if IsWrite(op) && Admits(cfg, Run(cfg, ops[..|ops| - 1]), before, op) then before + [op] else before
  }

  // --- What an accepted write logs ---

  /** The entry says what the operation said. */
  ghost predicate Says(e: Entry, op: Op, seqno: nat) {
    && e.seqno == seqno
    && match op
       case PutOp(record, item, value, metadata, _, _) => e == Entry(Join(record, item), value, metadata, Put, seqno) && SEPARATOR !in record
       case DeleteOp(record, item, _) => e == Entry(Join(record, item), [], [], Delete, seqno) && SEPARATOR !in record
       case DeleteRangeOp(record, start, end, _) =>
         e == Entry(Join(record, [RANGE_TOMBSTONE_PREFIX] + start), end, [], RangeDelete, seqno) && SEPARATOR !in record
       case _ => false
  }

  ghost predicate SaysAll(log: seq<Entry>, accepted: seq<Op>) {
    |log| == |accepted| && forall i :: 0 <= i < |log| ==> Says(log[i], accepted[i], i + 1)
  }

  lemma RequestSays(s: State, op: Op)
    requires IsWrite(op) && Request(s, op).Ok?
    ensures Says(Request(s, op).value.0, op, s.nextSeqno)
    ensures Request(s, op).value.1 == if op.PutOp? then op.token else NO_TOKEN
  {
  }

  // --- Tokens ---

  /** The number at which a memtable began. */
  function StartOf(mts: seq<Memtable>, j: nat, flushed: nat): nat
    requires j < |mts|
  {
    if j + 1 < |mts| then mts[j + 1].nextSeqno else flushed + 1
  }

  /** The memtable holds the tokens of the accepted puts numbered from `start` up to its next number. */
  ghost predicate HoldsTokens(mt: Memtable, start: nat, accepted: seq<Op>) {
    && 1 <= start <= mt.nextSeqno <= |accepted| + 1
    && (forall token :: token in mt.tokens <==>
          token != NO_TOKEN && exists i :: start <= i + 1 < mt.nextSeqno && accepted[i].PutOp? && accepted[i].token == token)
    && (forall e :: e in mt.entries ==> e.seqno < mt.nextSeqno)
    && (start < mt.nextSeqno ==> exists e :: e in mt.entries && e.seqno == mt.nextSeqno - 1)
    && (mt.entries != [] ==> start < mt.nextSeqno)
  }

  ghost predicate TokensMatch(s: State, accepted: seq<Op>) {
    && s.nextSeqno == |accepted| + 1 == s.active.nextSeqno
    && forall j :: 0 <= j < |s.Memtables()| ==> HoldsTokens(s.Memtables()[j], StartOf(s.Memtables(), j, s.manifest.lastFlushed), accepted)
  }

  lemma {:induction false} SomeMemtable(mts: seq<Memtable>, flushed: nat, n: nat)
    requires mts != [] && flushed < n < mts[0].nextSeqno && forall j :: 0 <= j < |mts| ==> StartOf(mts, j, flushed) <= mts[j].nextSeqno
    ensures exists j :: 0 <= j < |mts| && StartOf(mts, j, flushed) <= n < mts[j].nextSeqno
    decreases |mts|
  {
    if n >= StartOf(mts, 0, flushed) {
      assert 0 < |mts|;
    } else {
      var rest := mts[1..];
      assert forall j :: 0 <= j < |rest| ==> rest[j] == mts[j + 1] && StartOf(rest, j, flushed) == StartOf(mts, j + 1, flushed);
      SomeMemtable(rest, flushed, n);
      var j :| 0 <= j < |rest| && StartOf(rest, j, flushed) <= n < rest[j].nextSeqno;
      assert StartOf(mts, j + 1, flushed) <= n < mts[j + 1].nextSeqno;
    }
  }

  lemma {:induction false} StartsAbove(mts: seq<Memtable>, flushed: nat, j: nat)
    requires j < |mts| && forall i :: 0 <= i < |mts| ==> StartOf(mts, i, flushed) <= mts[i].nextSeqno
    ensures flushed < StartOf(mts, j, flushed)
    decreases |mts| - j
  {
    if j + 1 < |mts| {
      StartsAbove(mts, flushed, j + 1);
    }
  }

  /** A token is known to the memtables exactly while its put is not flushed. */
  lemma {:induction false} KnownIsInUse(s: State, accepted: seq<Op>, token: Token)
    requires TokensMatch(s, accepted)
    ensures KnownToken(s.Memtables(), token) <==> token != NO_TOKEN && TokenInUse(s.manifest.lastFlushed, accepted, token)
  {
    var mts, flushed := s.Memtables(), s.manifest.lastFlushed;
    assert forall j :: 0 <= j < |mts| ==> StartOf(mts, j, flushed) <= mts[j].nextSeqno;
    if token != NO_TOKEN && TokenInUse(flushed, accepted, token) {
      var i :| flushed <= i < |accepted| && accepted[i].PutOp? && accepted[i].token == token;
      SomeMemtable(mts, flushed, i + 1);
      var j :| 0 <= j < |mts| && StartOf(mts, j, flushed) <= i + 1 < mts[j].nextSeqno;
      assert token in mts[j].tokens;
    }
    if KnownToken(mts, token) {
      var j :| 0 <= j < |mts| && token in mts[j].tokens;
      StartsAbove(mts, flushed, j);
      var i :| StartOf(mts, j, flushed) <= i + 1 < mts[j].nextSeqno && accepted[i].PutOp? && accepted[i].token == token;
    }
  }

  // --- Every step keeps the account ---

  /** A later write leaves an older memtable's account as it is. */
  lemma HoldsMore(mt: Memtable, start: nat, accepted: seq<Op>, op: Op)
    requires HoldsTokens(mt, start, accepted)
    ensures HoldsTokens(mt, start, accepted + [op])
  {
    var more := accepted + [op];
    assert forall i :: 0 <= i < |accepted| ==> more[i] == accepted[i];
    forall token
      ensures token in mt.tokens <==>
              token != NO_TOKEN && exists i :: start <= i + 1 < mt.nextSeqno && more[i].PutOp? && more[i].token == token
    {
      if exists i :: start <= i + 1 < mt.nextSeqno && more[i].PutOp? && more[i].token == token {
        var i :| start <= i + 1 < mt.nextSeqno && more[i].PutOp? && more[i].token == token;
        assert accepted[i] == more[i];
      }
      if exists i :: start <= i + 1 < mt.nextSeqno && accepted[i].PutOp? && accepted[i].token == token {
        var i :| start <= i + 1 < mt.nextSeqno && accepted[i].PutOp? && accepted[i].token == token;
        assert accepted[i] == more[i];
      }
    }
  }

  lemma InsertMembersOf(mt: Memtable, e: Entry, token: Token)
    requires GoodMemtable(mt) && forall x :: x in mt.entries ==> x.seqno < mt.nextSeqno
    ensures forall x :: x in InsertEntry(mt, e, token).entries <==> x in mt.entries || x == e.(seqno := mt.nextSeqno)
  {
    InsertTier(mt, e, token);
    var after := InsertEntry(mt, e, token);
    forall x
      ensures x in after.entries <==> x in mt.entries || x == e.(seqno := mt.nextSeqno)
    {
      assert x in after.entries <==> x in TierOf(after);
      assert x in mt.entries <==> x in TierOf(mt);
    }
  }

  lemma HoldsNew(mt: Memtable, start: nat, accepted: seq<Op>, op: Op, e: Entry)
    requires HoldsTokens(mt, start, accepted) && GoodMemtable(mt) && mt.nextSeqno == |accepted| + 1 && IsWrite(op)
    ensures HoldsTokens(InsertEntry(mt, e, if op.PutOp? then op.token else NO_TOKEN), start, accepted + [op])
  {
    var token := if op.PutOp? then op.token else NO_TOKEN;
    var after, more := InsertEntry(mt, e, token), accepted + [op];
    InsertMembersOf(mt, e, token);
    HoldsMore(mt, start, accepted, op);
    assert e.(seqno := mt.nextSeqno) in after.entries;
    assert after.tokens == if token == NO_TOKEN then mt.tokens else mt.tokens + {token};
    hide InsertEntry, GoodMemtable;
    forall t
      ensures t in after.tokens <==>
              t != NO_TOKEN && exists i :: start <= i + 1 < after.nextSeqno && more[i].PutOp? && more[i].token == t
    {
      if t in mt.tokens {
        var i :| start <= i + 1 < mt.nextSeqno && more[i].PutOp? && more[i].token == t;
        assert start <= i + 1 < after.nextSeqno;
      }
      if t != NO_TOKEN && t == token {
        assert more[|accepted|] == op;
      }
    }
  }

  lemma {:induction false} AcceptMatches(cfg: EngineConfig, s: State, log: seq<Entry>, accepted: seq<Op>, op: Op, e: Entry)
    requires Inv(cfg, s, log) && TokensMatch(s, accepted) && IsWrite(op)
    ensures TokensMatch(Accept(s, e, if op.PutOp? then op.token else NO_TOKEN), accepted + [op])
  {
    hide Inv, GoodMemtable, HoldsTokens, InsertEntry;
    var token := if op.PutOp? then op.token else NO_TOKEN;
    var after, flushed := Accept(s, e, token), s.manifest.lastFlushed;
    var mts, now := s.Memtables(), after.Memtables();
    MemoryIsGood(cfg, s, log);
    assert now == mts[0 := after.active] && mts[0] == s.active;
    NextGrows(s.active, e, token);
    forall j | 0 <= j < |now|
      ensures HoldsTokens(now[j], StartOf(now, j, flushed), accepted + [op])
    {
      assert StartOf(now, j, flushed) == StartOf(mts, j, flushed);
      if j == 0 {
        HoldsNew(mts[0], StartOf(mts, 0, flushed), accepted, op, e);
      } else {
        HoldsMore(mts[j], StartOf(mts, j, flushed), accepted, op);
      }
    }
  }

  lemma NextGrows(mt: Memtable, e: Entry, token: Token)
    ensures InsertEntry(mt, e, token).nextSeqno == mt.nextSeqno + 1
  {
  }

  lemma MemoryIsGood(cfg: EngineConfig, s: State, log: seq<Entry>)
    requires Inv(cfg, s, log)
    ensures forall j :: 0 <= j < |s.Memtables()| ==> GoodMemtable(s.Memtables()[j])
    ensures forall j :: 0 <= j < |s.frozen| ==> s.frozen[j].entries != []
  {
  }

  lemma {:induction false} FreezeMatches(cfg: EngineConfig, s: State, accepted: seq<Op>)
    requires TokensMatch(s, accepted) && Freeze(cfg, s).Ok?
    ensures TokensMatch(Freeze(cfg, s).value, accepted)
  {
    var after, flushed := Freeze(cfg, s).value, s.manifest.lastFlushed;
    var mts, now := s.Memtables(), after.Memtables();
    assert now == [after.active] + mts;
    EmptyHolds(s.active.nextSeqno, accepted);
    hide HoldsTokens;
    forall j | 0 <= j < |now|
      ensures HoldsTokens(now[j], StartOf(now, j, flushed), accepted)
    {
      if j > 0 {
        assert StartOf(now, j, flushed) == StartOf(mts, j - 1, flushed) && now[j] == mts[j - 1];
      }
    }
  }

  lemma EmptyHolds(start: nat, accepted: seq<Op>)
    requires 1 <= start <= |accepted| + 1
    ensures HoldsTokens(EmptyMemtable(start), start, accepted)
  {
  }

  /** The flushed mark moves to the last number of the memtable that was flushed. */
  lemma HighestIsLast(mt: Memtable, start: nat, accepted: seq<Op>)
    requires HoldsTokens(mt, start, accepted) && mt.entries != []
    ensures MaxSeqno(mt.entries) == mt.nextSeqno - 1
  {
    var m := MaxSeqno(mt.entries);
    hide MaxSeqno;
    var e :| e in mt.entries && e.seqno == mt.nextSeqno - 1;
    var f :| f in mt.entries && f.seqno == m;
  }

  lemma {:induction false} FlushMatches(cfg: EngineConfig, s: State, log: seq<Entry>, accepted: seq<Op>, now: nat)
    requires Inv(cfg, s, log) && TokensMatch(s, accepted) && s.frozen != []
    ensures TokensMatch(FlushOldest(cfg, s, now).0, accepted)
  {
    hide Inv, FlushOldest, HoldsTokens, MaxSeqno, GoodMemtable;
    MemoryIsGood(cfg, s, log);
    FlushFacts(cfg, s, log, now);
    var after, n := FlushOldest(cfg, s, now).0, |s.frozen| - 1;
    var mts, left := s.Memtables(), after.Memtables();
    assert left == mts[..|mts| - 1];
    var oldest := mts[|mts| - 1];
    assert oldest == s.frozen[n];
    HighestIsLast(oldest, StartOf(mts, |mts| - 1, s.manifest.lastFlushed), accepted);
    LastIsPositive(oldest, StartOf(mts, |mts| - 1, s.manifest.lastFlushed), accepted);
    forall j | 0 <= j < |left|
      ensures HoldsTokens(left[j], StartOf(left, j, after.manifest.lastFlushed), accepted)
    {
      assert StartOf(left, j, after.manifest.lastFlushed) == StartOf(mts, j, s.manifest.lastFlushed);
    }
  }

  lemma LastIsPositive(mt: Memtable, start: nat, accepted: seq<Op>)
    requires HoldsTokens(mt, start, accepted)
    ensures mt.nextSeqno >= 1
  {
  }

  lemma {:induction false} TasksLeaveMemory(cfg: EngineConfig, s: State, tasks: seq<C.Task>, now: nat)
    ensures var t := RunTasks(cfg, s, tasks, now).0;
            t.manifest.lastFlushed == s.manifest.lastFlushed && t.Memtables() == s.Memtables() && t.nextSeqno == s.nextSeqno && t.active == s.active
    decreases |tasks|
  {
    hide C.Execute, RebuildLevels, C.IdsUsed;
    if tasks != [] {
      var r := C.Execute(cfg.compaction, tasks[0], s.manifest, s.nextId, now);
      ExecuteLeavesFlushed(cfg.compaction, tasks[0], s.manifest, s.nextId, now);
      if r.Ok? {
        TasksLeaveMemory(cfg, s.(manifest := r.value, levels := RebuildLevels(r.value), nextId := s.nextId + C.IdsUsed(cfg.compaction, tasks[0])), tasks[1..], now);
      }
    }
  }

  lemma ExecuteLeavesFlushed(cfg: C.Config, task: C.Task, m: Manifest, id: nat, now: nat)
    ensures var r := C.Execute(cfg, task, m, id, now); r.Ok? ==> r.value.lastFlushed == m.lastFlushed
  {
  }

  lemma CompactMatches(cfg: EngineConfig, s: State, accepted: seq<Op>, now: nat)
    requires TokensMatch(s, accepted)
    ensures TokensMatch(MaybeCompact(cfg, s, now).0, accepted)
  {
    hide RunTasks, C.CheckTriggers, HoldsTokens;
    TasksLeaveMemory(cfg, s, C.CheckTriggers(cfg.compaction, s.manifest.levels), now);
  }

  lemma FlushFrozenMatches(cfg: EngineConfig, s: State, log: seq<Entry>, accepted: seq<Op>, now: nat)
    requires Inv(cfg, s, log) && TokensMatch(s, accepted) && s.frozen != []
    ensures TokensMatch(FlushFrozen(cfg, s, now).0, accepted)
  {
    hide Inv, TokensMatch, FlushOldest, MaybeCompact;
    FlushKeeps(cfg, s, log, now);
    FlushMatches(cfg, s, log, accepted, now);
    CompactMatches(cfg, FlushOldest(cfg, s, now).0, accepted, now);
  }

  lemma FreezeAndFlushMatches(cfg: EngineConfig, s: State, log: seq<Entry>, accepted: seq<Op>, now: nat)
    requires Inv(cfg, s, log) && TokensMatch(s, accepted) && s.active.entries != []
    ensures TokensMatch(FreezeAndFlush(cfg, s, now).0, accepted)
  {
    hide Inv, TokensMatch, FlushFrozen;
    if Freeze(cfg, s).Ok? {
      FreezeKeeps(cfg, s, log);
      FreezeMatches(cfg, s, accepted);
      FlushFrozenMatches(cfg, Freeze(cfg, s).value, log, accepted, now);
    }
  }

  /** Acceptance, judged from the arguments and the earlier writes, is what the engine does. */
  lemma {:induction false} AdmitsIff(cfg: EngineConfig, s: State, accepted: seq<Op>, op: Op)
    requires TokensMatch(s, accepted) && IsWrite(op)
    ensures Admits(cfg, s, accepted, op) <==> !Stalled(cfg, s, op.env) && Request(s, op).Ok?
  {
    hide TokensMatch, TokenInUse, KnownToken;
    if op.PutOp? {
      KnownIsInUse(s, accepted, op.token);
      NoTokenIsUnknown(s.Memtables());
    }
  }

  lemma NoTokenIsUnknown(mts: seq<Memtable>)
    ensures !KnownToken(mts, NO_TOKEN)
  {
  }

  lemma {:induction false} WriteMatches(cfg: EngineConfig, s: State, log: seq<Entry>, accepted: seq<Op>, op: Op)
    requires Inv(cfg, s, log) && TokensMatch(s, accepted) && IsWrite(op)
    ensures Admits(cfg, s, accepted, op) ==> TokensMatch(Write(cfg, s, op).0, accepted + [op])
    ensures !Admits(cfg, s, accepted, op) ==> Write(cfg, s, op).0 == s
    ensures Admits(cfg, s, accepted, op) <==> |Logged(cfg, s, op)| == 1
    ensures !Admits(cfg, s, accepted, op) <==> Logged(cfg, s, op) == []
    ensures Admits(cfg, s, accepted, op) ==> Says(Logged(cfg, s, op)[0], op, s.nextSeqno)
  {
    hide Inv, TokensMatch, Admits, Accept, Request, FreezeAndFlush, Says;
    AdmitsIff(cfg, s, accepted, op);
    if Admits(cfg, s, accepted, op) {
      RequestSays(s, op);
      var (e, token) := Request(s, op).value;
      SaysSeqno(e, op, s.nextSeqno);
      AcceptMatches(cfg, s, log, accepted, op, e);
      AcceptKeeps(cfg, s, log, e, token);
      AcceptFills(cfg, s, log, e, token);
      if op.env.freezeDue {
        FreezeAndFlushMatches(cfg, Accept(s, e, token), log + [e], accepted + [op], op.env.now);
      }
    }
  }

  lemma SaysSeqno(e: Entry, op: Op, seqno: nat)
    requires Says(e, op, seqno)
    ensures e.seqno == seqno
  {
  }

  lemma AcceptFills(cfg: EngineConfig, s: State, log: seq<Entry>, e: Entry, token: Token)
    requires Inv(cfg, s, log)
    ensures Accept(s, e, token).active.entries != []
  {
    assert s.Memtables()[0] == s.active;
    ActiveIsLogged(cfg, s, log);
    InsertMembersOf(s.active, e, token);
  }

  lemma {:induction false} StepMatches(cfg: EngineConfig, s: State, log: seq<Entry>, accepted: seq<Op>, op: Op)
    requires Inv(cfg, s, log) && TokensMatch(s, accepted) && SaysAll(log, accepted)
    ensures var more := if IsWrite(op) && Admits(cfg, s, accepted, op) then accepted + [op] else accepted;
            TokensMatch(Step(cfg, s, op).0, more) && SaysAll(log + Logged(cfg, s, op), more)
  {
    hide Inv, TokensMatch, Admits, Write, Freeze, FlushFrozen, MaybeCompact, Logged, Says;
    if IsWrite(op) {
      WriteMatches(cfg, s, log, accepted, op);
      NextNumber(s, accepted);
      assert log + [] == log;
    } else {
      QuietStep(cfg, s, op);
      assert log + [] == log;
      match op
      case FreezeOp =>
        if s.active.entries != [] && Freeze(cfg, s).Ok? {
          FreezeMatches(cfg, s, accepted);
        }
      case FlushOp(now) =>
        if s.frozen != [] {
          FlushFrozenMatches(cfg, s, log, accepted, now);
        }
      case CompactOp(now) => CompactMatches(cfg, s, accepted, now);
    }
  }

  lemma NextNumber(s: State, accepted: seq<Op>)
    requires TokensMatch(s, accepted)
    ensures s.nextSeqno == |accepted| + 1
  {
  }

  lemma QuietStep(cfg: EngineConfig, s: State, op: Op)
    requires !IsWrite(op)
    ensures Logged(cfg, s, op) == []
  {
  }

  /** The log of a run is what its accepted writes say, one entry each, in order, numbered from one; and
      acceptance is decided by the arguments, the stall test and the tokens of unflushed puts. */
  lemma {:induction false} HistoryIsAccepted(cfg: EngineConfig, ops: seq<Op>)
    ensures SaysAll(History(cfg, ops), Accepted(cfg, ops))
    ensures TokensMatch(Run(cfg, ops), Accepted(cfg, ops))
  {
    if ops == [] {
      EmptyHolds(1, []);
      assert Init().Memtables() == [EmptyMemtable(1)];
    } else {
      hide TokensMatch, Says, Admits, Step, Logged;
      var before := ops[..|ops| - 1];
      HistoryIsAccepted(cfg, before);
      RunKeeps(cfg, before);
      StepMatches(cfg, Run(cfg, before), History(cfg, before), Accepted(cfg, before), ops[|ops| - 1]);
    }
  }

  /** A write that is not accepted changes nothing, and is told why. */
  lemma {:induction false} RefusedWrite(cfg: EngineConfig, ops: seq<Op>, op: Op)
    requires IsWrite(op) && !Admits(cfg, Run(cfg, ops), Accepted(cfg, ops), op)
    ensures var s := Run(cfg, ops); var (t, r) := Step(cfg, s, op);
            && t == s && Accepted(cfg, ops + [op]) == Accepted(cfg, ops)
            && r == Err(if |s.manifest.levels[0]| >= cfg.compaction.l0Stop || op.env.memoryFull then ResourceExhausted
                        else if op.record == [] || SEPARATOR in op.record then InvalidKey
                        else if |op.record| > MAX_RECORD_ID_LEN || ItemLength(op) > MAX_ITEM_KEY_LEN then KeyTooLong
                        else DuplicateToken)
  {
    hide Run, Accepted, TokensMatch, Accept, KnownToken, TokenInUse;
    HistoryIsAccepted(cfg, ops);
    AdmitsIff(cfg, Run(cfg, ops), Accepted(cfg, ops), op);
    AcceptedSnoc(cfg, ops, op);
  }

  lemma AcceptedSnoc(cfg: EngineConfig, ops: seq<Op>, op: Op)
    ensures Accepted(cfg, ops + [op]) ==
            if IsWrite(op) && Admits(cfg, Run(cfg, ops), Accepted(cfg, ops), op) then Accepted(cfg, ops) + [op] else Accepted(cfg, ops)
  {
    assert (ops + [op])[..|ops|] == ops;
  }

  /** A put repeated with its token is refused as long as the first one is not flushed. */
  lemma {:induction false} RepeatedPutIsRefused(cfg: EngineConfig, ops: seq<Op>, op: Op, i: nat)
    requires op.PutOp? && op.token != NO_TOKEN && ValidRecordId(op.record) && |op.item| <= MAX_ITEM_KEY_LEN
    requires Run(cfg, ops).manifest.lastFlushed <= i < |Accepted(cfg, ops)|
    requires Accepted(cfg, ops)[i].PutOp? && Accepted(cfg, ops)[i].token == op.token
    requires |Run(cfg, ops).manifest.levels[0]| < cfg.compaction.l0Stop && !op.env.memoryFull
    ensures Step(cfg, Run(cfg, ops), op) == (Run(cfg, ops), Err(DuplicateToken))
  {
    hide Run, Accepted, Step;
    RefusedWrite(cfg, ops, op);
  }

  /** An accepted write that is due takes the memtable with it: the active memtable is frozen and the
      oldest frozen one is flushed, unless too many are waiting. */
  lemma {:induction false} DueWriteFlushes(cfg: EngineConfig, ops: seq<Op>, op: Op)
    requires IsWrite(op) && Admits(cfg, Run(cfg, ops), Accepted(cfg, ops), op)
    ensures var s, t := Run(cfg, ops), Step(cfg, Run(cfg, ops), op).0;
            if op.env.freezeDue && |s.frozen| < cfg.maxFrozen
            then t.active.entries == [] && |t.frozen| == |s.frozen| && t.manifest.lastFlushed > s.manifest.lastFlushed
            else t.active.entries != [] && t.frozen == s.frozen && t.manifest == s.manifest
  {
    hide Run, Accepted, TokensMatch, Inv, Request, Accept, FlushFrozen, MaxSeqno;
    var s, log := Run(cfg, ops), History(cfg, ops);
    RunKeeps(cfg, ops);
    HistoryIsAccepted(cfg, ops);
    AdmitsIff(cfg, s, Accepted(cfg, ops), op);
    RequestSays(s, op);
    var (e, token) := Request(s, op).value;
    AcceptKeeps(cfg, s, log, e, token);
    AcceptFills(cfg, s, log, e, token);
    AcceptLeavesRest(s, e, token);
    if op.env.freezeDue && |s.frozen| < cfg.maxFrozen {
      FreezeKeeps(cfg, Accept(s, e, token), log + [e]);
      FlushTakesOldest(cfg, Freeze(cfg, Accept(s, e, token)).value, log + [e], op.env.now);
    }
  }

  lemma AcceptLeavesRest(s: State, e: Entry, token: Token)
    ensures var t := Accept(s, e, token); t.frozen == s.frozen && t.manifest == s.manifest && t.levels == s.levels
  {
  }

  lemma FlushTakesOldest(cfg: EngineConfig, s: State, log: seq<Entry>, now: nat)
    requires Inv(cfg, s, log) && s.frozen != []
    ensures var t := FlushFrozen(cfg, s, now).0;
            t.active == s.active && t.frozen == s.frozen[..|s.frozen| - 1] && t.manifest.lastFlushed > s.manifest.lastFlushed
  {
    hide MaybeCompact, FlushOldest, MaxSeqno;
    FlushKeeps(cfg, s, log, now);
    FlushFacts(cfg, s, log, now);
    OldestIsNew(cfg, s, log);
    hide Inv;
    CompactLeavesMemory(cfg, FlushOldest(cfg, s, now).0, now);
  }

  lemma CompactLeavesMemory(cfg: EngineConfig, s: State, now: nat)
    ensures var t := MaybeCompact(cfg, s, now).0; t.manifest.lastFlushed == s.manifest.lastFlushed && t.active == s.active && t.frozen == s.frozen
  {
    hide RunTasks, C.CheckTriggers;
    TasksLeaveMemory(cfg, s, C.CheckTriggers(cfg.compaction, s.manifest.levels), now);
    var t := MaybeCompact(cfg, s, now).0;
    assert t.Memtables()[1..] == t.frozen && s.Memtables()[1..] == s.frozen;
  }

  lemma OldestIsNew(cfg: EngineConfig, s: State, log: seq<Entry>)
    requires Inv(cfg, s, log) && s.frozen != []
    ensures MaxSeqno(s.frozen[|s.frozen| - 1].entries) > s.manifest.lastFlushed
  {
    hide GoodDisk, T.Ordered, T.Faithful, MaxSeqno;
    var mt := s.frozen[|s.frozen| - 1];
    assert s.Memtables()[|s.frozen|] == mt;
    assert AllAbove(mt, s.manifest.lastFlushed) && mt.entries != [];
  }

  /** Maintenance: a freeze moves a nonempty active memtable to the front of the frozen ones if there is
      room, and a flush takes the oldest frozen one to disk. */
  lemma {:induction false} MaintenanceMoves(cfg: EngineConfig, ops: seq<Op>, now: nat)
    ensures var s := Run(cfg, ops); var (t, r) := Step(cfg, s, FreezeOp);
            if s.active.entries == [] then t == s && r.Ok?
            else if |s.frozen| >= cfg.maxFrozen then t == s && r == Err(ResourceExhausted)
            else
              && t.frozen == [s.active] + s.frozen && t.active == EmptyMemtable(s.nextSeqno) && r.Ok?
              && t.generations == [s.generation] + s.generations && t.generation == s.generation + 1
              && t.levels == s.levels && t.manifest == s.manifest && t.nextSeqno == s.nextSeqno
    ensures var s := Run(cfg, ops); var t := Step(cfg, s, FlushOp(now)).0;
            if s.frozen == [] then t == s
            else t.active == s.active && t.frozen == s.frozen[..|s.frozen| - 1] && t.manifest.lastFlushed > s.manifest.lastFlushed
  {
    hide Run, Inv, FlushFrozen, TokensMatch, Accepted;
    var s := Run(cfg, ops);
    RunKeeps(cfg, ops);
    HistoryIsAccepted(cfg, ops);
    NextNumber(s, Accepted(cfg, ops));
    ActiveNext(s, Accepted(cfg, ops));
    if s.frozen != [] {
      FlushTakesOldest(cfg, s, History(cfg, ops), now);
    }
  }

  lemma ActiveNext(s: State, accepted: seq<Op>)
    requires TokensMatch(s, accepted)
    ensures s.active.nextSeqno == s.nextSeqno
  {
  }

  lemma {:induction false} TasksKeepEpochs(cfg: EngineConfig, s: State, tasks: seq<C.Task>, now: nat)
    ensures SameEpochs(s, RunTasks(cfg, s, tasks, now).0)
    decreases |tasks|
  {
    hide C.Execute, RebuildLevels, C.IdsUsed;
    if tasks != [] {
      var r := C.Execute(cfg.compaction, tasks[0], s.manifest, s.nextId, now);
      ExecuteKeepsEpochs(cfg.compaction, tasks[0], s.manifest, s.nextId, now);
      if r.Ok? {
        TasksKeepEpochs(cfg, s.(manifest := r.value, levels := RebuildLevels(r.value), nextId := s.nextId + C.IdsUsed(cfg.compaction, tasks[0])), tasks[1..], now);
      }
    }
  }

  predicate SameEpochs(s: State, t: State) {
    t.manifest.writerEpoch == s.manifest.writerEpoch && t.manifest.compactorEpoch == s.manifest.compactorEpoch
  }

  lemma ExecuteKeepsEpochs(cfg: C.Config, task: C.Task, m: Manifest, id: nat, now: nat)
    ensures var r := C.Execute(cfg, task, m, id, now);
            r.Ok? ==> r.value.writerEpoch == m.writerEpoch && r.value.compactorEpoch == m.compactorEpoch && r.value.id == m.id + 1
  {
  }

  lemma FlushKeepsEpochs(cfg: EngineConfig, s: State, now: nat)
    ensures SameEpochs(s, FlushFrozen(cfg, s, now).0)
  {
    var flushed := FlushOldest(cfg, s, now).0;
    assert SameEpochs(s, flushed) by {
      hide MaxSeqno, WriteTable, ValidUpdate;
    }
    hide FlushOldest, RunTasks, C.CheckTriggers;
    TasksKeepEpochs(cfg, flushed, C.CheckTriggers(cfg.compaction, flushed.manifest.levels), now);
  }

  /** The only writer of its manifests, an engine never changes the epochs it was opened with. */
  lemma {:induction false} EpochsStay(cfg: EngineConfig, s: State, op: Op)
    ensures SameEpochs(s, Step(cfg, s, op).0)
  {
    hide FlushFrozen, RunTasks, C.CheckTriggers, Request, InsertEntry, KnownToken;
    FlushKeepsEpochs(cfg, s, match op case FlushOp(now) => now case _ => 0);
    match op
    case CompactOp(now) => TasksKeepEpochs(cfg, s, C.CheckTriggers(cfg.compaction, s.manifest.levels), now);
    case FreezeOp =>
    case FlushOp(_) =>
    case _ =>
      if !Stalled(cfg, s, op.env) && Request(s, op).Ok? {
        var accepted := Accept(s, Request(s, op).value.0, Request(s, op).value.1);
        if Freeze(cfg, accepted).Ok? {
          FlushKeepsEpochs(cfg, Freeze(cfg, accepted).value, op.env.now);
        }
      }
  }

  // --- The map the operations stand for ---

  predicate InDeletedRange(k: Bytes, record: Bytes, start: Bytes, end: Bytes) {
    RecordId(k) == record && Le(start, ItemKey(k)) && (end == [] || Lt(ItemKey(k), end))
  }

  /** Puts set an item, deletes remove one, range deletes remove the items of a record from the start up to
      the end, or all from the start on when the end is empty. */
  function MapOf(accepted: seq<Op>): map<Bytes, Item> {
    if accepted == [] then map[]
    else
      var before := MapOf(accepted[..|accepted| - 1]);
      match accepted[|accepted| - 1]
      case PutOp(record, item, value, metadata, _, _) => before[Join(record, item) := Item(value, metadata)]
      case DeleteOp(record, item, _) => before - {Join(record, item)}
      case DeleteRangeOp(record, start, end, _) => map k | k in before && !InDeletedRange(k, record, start, end) :: before[k]
      case _ => before
  }

  lemma RangeSays(e: Entry, op: Op, seqno: nat, k: Bytes, older: nat)
    requires op.DeleteRangeOp? && Says(e, op, seqno) && older < seqno
    ensures Hides(TombstoneOf(e), RecordId(k), ItemKey(k), older) <==> InDeletedRange(k, op.record, op.start, op.end)
  {
    JoinSplit(op.record, [RANGE_TOMBSTONE_PREFIX] + op.start);
    assert ([RANGE_TOMBSTONE_PREFIX] + op.start)[1..] == op.start;
    hide RecordId, ItemKey, Lt;
  }

  lemma {:induction false} DeletedSnoc(log: seq<Entry>, e: Entry, k: Bytes, seqno: nat)
    ensures DeletedByRange(log + [e], k, seqno) <==>
            DeletedByRange(log, k, seqno) || (e.kind == RangeDelete && Hides(TombstoneOf(e), RecordId(k), ItemKey(k), seqno))
  {
    hide TombstoneOf, Hides, RecordId, ItemKey;
    var all := log + [e];
    assert e in all && forall r :: r in log ==> r in all;
    assert forall r :: r in all ==> r == e || r in log;
  }

  /** The map, read off the log: the last write to the key itself decides, with the range deletes after
      it. A range delete that was logged under the very key says nothing. */
  ghost predicate MapShows(m: map<Bytes, Item>, log: seq<Entry>, k: Bytes) {
    var last := Newest(log, k);
    if last.None? || last.value.kind == Delete then k !in m
    else last.value.kind == Put ==> At(m, k) == if DeletedByRange(log, k, last.value.seqno) then None else ItemOf(last)
  }

  lemma {:induction false} LogNumbered(log: seq<Entry>, accepted: seq<Op>)
    requires SaysAll(log, accepted)
    ensures forall e :: e in log ==> 1 <= e.seqno <= |log|
  {
    forall e | e in log
      ensures 1 <= e.seqno <= |log|
    {
      var i :| 0 <= i < |log| && log[i] == e;
      assert Says(log[i], accepted[i], i + 1);
    }
  }

  lemma NewestSnoc(log: seq<Entry>, e: Entry, k: Bytes)
    requires forall x :: x in log ==> x.seqno < e.seqno
    ensures Newest(log + [e], k) == if e.key == k then Some(e) else Newest(log, k)
  {
    assert (log + [e])[..|log|] == log;
  }

  lemma {:induction false} MapByLog(accepted: seq<Op>, log: seq<Entry>, k: Bytes)
    requires SaysAll(log, accepted)
    ensures MapShows(MapOf(accepted), log, k)
    decreases |log|
  {
    if log != [] {
      var n := |log| - 1;
      var before, e, op := log[..n], log[n], accepted[n];
      assert log == before + [e];
      assert Says(e, op, n + 1);
      assert forall i :: 0 <= i < n ==> Says(log[i], accepted[i], i + 1);
      assert SaysAll(before, accepted[..n]);
      LogNumbered(before, accepted[..n]);
      MapByLog(accepted[..n], before, k);
      SaysSeqno(e, op, n + 1);
      NewestSnoc(before, e, k);
      hide Newest, DeletedByRange, MapOf, SaysAll;
      MapStep(accepted, before, e, k);
    } else {
      assert accepted == [] && MapOf(accepted) == map[] && Newest(log, k) == None;
    }
  }

  lemma {:induction false} MapStep(accepted: seq<Op>, log: seq<Entry>, e: Entry, k: Bytes)
    requires |accepted| == |log| + 1 && Says(e, accepted[|log|], |log| + 1)
    requires (forall x :: x in log ==> 1 <= x.seqno <= |log|) && e.seqno == |log| + 1
    requires MapShows(MapOf(accepted[..|log|]), log, k)
    requires Newest(log + [e], k) == if e.key == k then Some(e) else Newest(log, k)
    ensures MapShows(MapOf(accepted), log + [e], k)
  {
    var op, last := accepted[|log|], Newest(log, k);
    var before, m := MapOf(accepted[..|log|]), MapOf(accepted);
    if e.key == k {
      NothingAfter(log, e, k);
      hide DeletedByRange, Newest, Join;
    } else {
      if last.Some? {
        NewestIsIn(log, k);
        DeletedSnoc(log, e, k, last.value.seqno);
        if op.DeleteRangeOp? {
          RangeSays(e, op, |log| + 1, k, last.value.seqno);
        }
      }
      hide DeletedByRange, Newest, Join, RecordId, ItemKey, Lt, Hides, TombstoneOf;
    }
  }

  lemma NewestIsIn(log: seq<Entry>, k: Bytes)
    ensures Newest(log, k).Some? ==> Newest(log, k).value in log
  {
  }

  lemma NothingAfter(log: seq<Entry>, e: Entry, k: Bytes)
    requires forall x :: x in log ==> x.seqno < e.seqno
    ensures e.kind != RangeDelete ==> !DeletedByRange(log + [e], k, e.seqno)
  {
  }

  // --- Reads against the map of the operations ---

  ghost function MapAfter(cfg: EngineConfig, ops: seq<Op>): map<Bytes, Item> {
    MapOf(Accepted(cfg, ops))
  }

  /** Puts and point deletes: the map of the operations is the map of the log, and every read of every
      run is a lookup in it, except exactly where a block boundary hides the last write behind a version
      that shows something else. */
  lemma {:induction false} ReadsTheOperations(cfg: EngineConfig, ops: seq<Op>, k: Bytes)
    requires NoRangeDeletes(ops)
    ensures At(MapAfter(cfg, ops), k) == At(Meaning(History(cfg, ops)), k)
    ensures var s := Run(cfg, ops);
            ItemOf(PointRead(cfg, s, k)) == At(MapAfter(cfg, ops), k) <==>
              (Obscured(s, k) ==> Served(Candidate(cfg, s, k)) == At(MapAfter(cfg, ops), k))
  {
    hide Run, History, Accepted, MapOf, Meaning, Inv, Obscured, Candidate, PointRead, Newest, SaysAll, TokensMatch, DeletedByRange;
    var log := History(cfg, ops);
    HistoryIsAccepted(cfg, ops);
    RunKeeps(cfg, ops);
    HistoryHasNoRanges(cfg, ops);
    MapByLog(Accepted(cfg, ops), log, k);
    MapShowsLast(cfg, Run(cfg, ops), log, k);
    NewestIsIn(log, k);
    NoneDeleted(log, k);
    EngineIsAMap(cfg, ops, k);
  }

  lemma NoneDeleted(log: seq<Entry>, k: Bytes)
    requires forall e :: e in log ==> e.kind != RangeDelete
    ensures forall seqno :: !DeletedByRange(log, k, seqno)
  {
  }

  /** Every run, range deletes included: a read of a key that no block boundary hides is a lookup in the
      map of the operations, except exactly in two cases. A put that a later range delete covers still
      reads when no range delete that covers it is buffered any more; and an item whose key is itself the
      tombstone key of a later range delete reads as absent whether or not that range holds it. */
  lemma {:induction false} ReadsEveryOperationIff(cfg: EngineConfig, ops: seq<Op>, k: Bytes)
    requires !Obscured(Run(cfg, ops), k)
    ensures var s, m, last := Run(cfg, ops), MapAfter(cfg, ops), Newest(History(cfg, ops), k);
            ItemOf(PointRead(cfg, s, k)) == At(m, k) <==>
              && (last.Some? && last.value.kind == Put && k !in m ==> ListCovers(s.Memtables(), RecordId(k), ItemKey(k), last.value.seqno))
              && (last.Some? && last.value.kind == RangeDelete ==> k !in m)
  {
    hide Run, History, Accepted, MapOf, Inv, Obscured, PointRead, Newest, SaysAll, TokensMatch, DeletedByRange, ListCovers, RecordId, ItemKey;
    var s, log := Run(cfg, ops), History(cfg, ops);
    HistoryIsAccepted(cfg, ops);
    RunKeeps(cfg, ops);
    MapByLog(Accepted(cfg, ops), log, k);
    ReadIsLastWrite(cfg, s, log, k);
    var last := Newest(log, k);
    if last.Some? && ListCovers(s.Memtables(), RecordId(k), ItemKey(k), last.value.seqno) {
      BufferedRangesAreLogged(cfg, s, log, k, last.value.seqno);
    }
  }

  // --- A range delete that erases an item outside its range ---

  /** An item, and a range delete of other items whose tombstone key is the item's key. */
  function Colliding(v: Bytes): (ops: seq<Op>)
    ensures |ops| == 2
  {
    var env := Env(false, false, 0);
    [PutOp([1], [RANGE_TOMBSTONE_PREFIX, 2], v, [], NO_TOKEN, env), DeleteRangeOp([1], [2], [3], env)]
  }

  const COLLISION: Bytes := [1, 0, RANGE_TOMBSTONE_PREFIX, 2]

  lemma {:induction false} BothAccepted(cfg: EngineConfig, v: Bytes)
    requires cfg.compaction.l0Stop > 0
    ensures Accepted(cfg, Colliding(v)) == Colliding(v)
    ensures Run(cfg, Colliding(v)).levels[0] == []
  {
    hide Run, History, Accepted, Step, Logged, Admits, Accept;
    var ops := Colliding(v);
    assert ops[..1] == [] + [ops[0]] && ops == ops[..1] + [ops[1]];
    RunSnoc(cfg, [], ops[0]);
    RunSnoc(cfg, ops[..1], ops[1]);
    AcceptedSnoc(cfg, [], ops[0]);
    AcceptedSnoc(cfg, ops[..1], ops[1]);
    NothingYet(cfg);
    CollidingAdmitted(cfg, Init(), [], v);
    assert [] + [ops[0]] == [ops[0]] && [ops[0]] + [ops[1]] == ops;
    CollidingAdmitted(cfg, Run(cfg, ops[..1]), [ops[0]], v);
  }

  lemma NothingYet(cfg: EngineConfig)
    ensures Run(cfg, []) == Init() && Accepted(cfg, []) == []
  {
  }

  lemma CollidingAdmitted(cfg: EngineConfig, s: State, earlier: seq<Op>, v: Bytes)
    requires cfg.compaction.l0Stop > 0 && s.manifest.levels[0] == s.levels[0] == []
    ensures var ops := Colliding(v);
            && Admits(cfg, s, earlier, ops[0]) && Admits(cfg, s, earlier, ops[1])
            && (forall i :: 0 <= i < 2 ==> var t := Step(cfg, s, ops[i]).0; t.manifest.levels[0] == t.levels[0] == [])
  {
    hide InsertEntry, TokenInUse, KnownToken;
    var ops := Colliding(v);
    NoTokenIsUnknown(s.Memtables());
    assert Request(s, ops[0]).Ok? && Request(s, ops[1]).Ok?;
    hide Request;
    forall i | 0 <= i < 2
      ensures var t := Step(cfg, s, ops[i]).0; t.manifest.levels[0] == t.levels[0] == []
    {
      assert Step(cfg, s, ops[i]).0 == Accept(s, Request(s, ops[i]).value.0, Request(s, ops[i]).value.1);
    }
  }

  /** The item is not in the deleted range, and yet the read does not find it. */
  lemma {:induction false} TombstoneKeyErases(cfg: EngineConfig, v: Bytes)
    requires cfg.compaction.l0Stop > 0
    ensures At(MapAfter(cfg, Colliding(v)), COLLISION) == Some(Item(v, []))
    ensures PointRead(cfg, Run(cfg, Colliding(v)), COLLISION) == None
  {
    hide Run, History, Accepted, PointRead, Inv, TokensMatch, Newest, Obscured;
    var ops := Colliding(v);
    var s, log := Run(cfg, ops), History(cfg, ops);
    BothAccepted(cfg, v);
    HistoryIsAccepted(cfg, ops);
    RunKeeps(cfg, ops);
    CollidingMap(v);
    assert Says(log[0], ops[0], 1) && Says(log[1], ops[1], 2);
    assert [RANGE_TOMBSTONE_PREFIX] + [2] == [RANGE_TOMBSTONE_PREFIX, 2];
    assert Join([1], [RANGE_TOMBSTONE_PREFIX, 2]) == COLLISION;
    assert log == [log[0]] + [log[1]];
    NewestSnoc([log[0]], log[1], COLLISION);
    NothingSplit(s, COLLISION);
    ReadIsLastWrite(cfg, s, log, COLLISION);
  }

  lemma CollidingMap(v: Bytes)
    ensures At(MapOf(Colliding(v)), COLLISION) == Some(Item(v, []))
  {
    var ops := Colliding(v);
    assert ops[..1] == [ops[0]] && [ops[0]][..0] == [];
    assert MapOf([ops[0]]) == map[Join([1], [RANGE_TOMBSTONE_PREFIX, 2]) := Item(v, [])];
    assert Join([1], [RANGE_TOMBSTONE_PREFIX, 2]) == COLLISION;
    KeysApart();
    assert !Lt([RANGE_TOMBSTONE_PREFIX, 2], [3]);
    assert !InDeletedRange(COLLISION, [1], [2], [3]);
  }

  lemma NothingSplit(s: State, k: Bytes)
    requires s.levels[0] == []
    ensures !Obscured(s, k)
  {
  }
}
