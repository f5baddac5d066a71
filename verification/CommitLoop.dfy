/** The commit loop as it runs (crates/flushdb-wal/src/group_commit.rs over wal_writer.rs): each round
    is a run of the single steps of the group commit model, so a crash inside it is one of theirs. */
module CommitLoop {
  import opened Wrappers
  import opened ByteStrings
  import opened Entries
  import opened WalEntries
  import opened WalSegments
  import opened GroupCommits

  function TotalSize(es: seq<WalEntry>): nat {
    if es == [] then 0 else BodySize(es[0]) + 8 + TotalSize(es[1..])
  }

  lemma {:induction false} TotalSizeJoin(a: seq<WalEntry>, b: seq<WalEntry>)
    ensures TotalSize(a + b) == TotalSize(a) + TotalSize(b)
  {
    if a == [] {
      assert a + b == b;
    } else {
      assert (a + b)[1..] == a[1..] + b;
      TotalSizeJoin(a[1..], b);
    }
  }

  /** The size that batches are measured by is the size they have on disk. */
  lemma {:induction false} TotalSizeIsEncoded(crc: Bytes -> nat, es: seq<WalEntry>)
    requires AllEncodable(es)
    ensures |EncodeAll(crc, es)| == TotalSize(es)
  {
    if es != [] {
      EncodedLength(crc, es[0]);
      hide Encode;
      TotalSizeIsEncoded(crc, es[1..]);
    }
  }

  /** What the file system does to a round: it succeeds, or the write breaks off after some bytes, or
      the new segment cannot be made, or the sync fails. */
  datatype Io = Succeeds | WriteBreaks(cut: nat) | RotateBreaks | SyncBreaks

  /** The steps of one round over `k` commits. */
  function Round(c: Config, s: State, k: nat, now: nat, io: Io): State {
    var taken := Step(c, s, Take(k));
    match io
    case WriteBreaks(cut) => Step(c, taken, WriteFails(cut))
    case RotateBreaks => Step(c, Step(c, taken, Write), Fail)
    case SyncBreaks => Step(c, Step(c, Step(c, taken, Write), Rotate(now)), Fail)
    case Succeeds => Step(c, Step(c, Step(c, Step(c, taken, Write), Rotate(now)), Sync), Notify)
  }

  ghost predicate Ready(s: State, k: nat) {
    s.files != [] && s.pc.Idle? && 1 <= k && s.taken + k <= |s.submitted|
  }

  function BatchOf(s: State, k: nat): seq<WalEntry>
    requires s.taken + k <= |s.submitted|
  {
    Flatten(s.submitted[s.taken..s.taken + k])
  }

  /** The state once the batch is written, before any rotation. */
  function Written(c: Config, s: State, k: nat, cut: Option<nat>): State
    requires s.files != [] && s.taken + k <= |s.submitted|
  {
    var batch := BatchOf(s, k);
    var bytes := EncodeAll(c.crc, Number(batch, s.nextSeq));
    if cut.Some? then s.(files := AppendToLast(s.files, if cut.value <= |bytes| then bytes[..cut.value] else bytes), taken := s.taken + k)
    else s.(files := AppendToLast(s.files, bytes), nextSeq := s.nextSeq + |batch|, taken := s.taken + k)
  }

  function Rotated(c: Config, s: State, now: nat): State
    requires s.files != []
  {
    if |s.files[|s.files| - 1]| >= c.segmentTarget then s.(files := NewFile(s, s.nextSeq, now), synced := HEADER_SIZE) else s
  }

  lemma RoundOverflows(c: Config, s: State, k: nat, now: nat, io: Io)
    requires Ready(s, k) && s.nextSeq + |BatchOf(s, k)| >= U64 && !io.WriteBreaks?
    ensures Round(c, s, k, now, io) == s.(taken := s.taken + k, pc := Stopped)
  {
    hide EncodeAll, Number, Flatten;
  }

  lemma RoundBreaksOff(c: Config, s: State, k: nat, now: nat, cut: nat)
    requires Ready(s, k) && s.nextSeq + |BatchOf(s, k)| < U64 && cut <= |EncodeAll(c.crc, Number(BatchOf(s, k), s.nextSeq))|
    ensures Round(c, s, k, now, WriteBreaks(cut)) == Written(c, s, k, Some(cut)).(pc := Stopped)
  {
    hide EncodeAll, Number, Flatten;
  }

  lemma RoundWrites(c: Config, s: State, k: nat, now: nat)
    requires Ready(s, k) && s.nextSeq + |BatchOf(s, k)| < U64
    ensures var w := Written(c, s, k, None); var r := Rotated(c, w, now);
            && Round(c, s, k, now, RotateBreaks) == w.(pc := Stopped)
            && Round(c, s, k, now, SyncBreaks) == r.(pc := Stopped)
            && Round(c, s, k, now, Succeeds) == r.(synced := |r.files[|r.files| - 1]|, acked := s.acked + k)
  {
    hide EncodeAll, Number, Flatten, EncodeHeader;
  }

  /** A round that succeeds leaves everything synced, and begins a new segment exactly when the batch
      brought the current one to its target size. */
  lemma {:induction false} RotatesWhenFull(c: Config, s: State, k: nat, now: nat)
    requires Ready(s, k) && s.nextSeq + |BatchOf(s, k)| < U64
    ensures var t := Round(c, s, k, now, Succeeds); var n := |s.files| - 1;
            var grown := s.files[n] + EncodeAll(c.crc, Number(BatchOf(s, k), s.nextSeq));
            && t.files != [] && t.synced == |t.files[|t.files| - 1]| && t.acked == s.acked + k
            && t.files[..n] == s.files[..n] && t.files[n] == grown
            && (if |grown| >= c.segmentTarget
                then |t.files| == n + 2 && t.files[n + 1] == EncodeHeader(Header(n + 2, s.nextSeq + |BatchOf(s, k)|, now))
                else |t.files| == n + 1)
  {
    hide Round, EncodeAll, Number, Flatten, EncodeHeader, Step;
    RoundWrites(c, s, k, now);
  }

  class GroupCommitLoop {
    const c: Config
    const maxBytes: nat
    var files: seq<Bytes>
    var synced: nat
    var nextSeq: nat
    var stopped: bool
    var channel: seq<seq<WalEntry>>
    ghost var found: seq<WalEntry>
    ghost var submitted: seq<seq<WalEntry>>
    ghost var taken: nat
    ghost var acked: nat

    ghost predicate Valid()
      reads this
    {
      files != [] && taken <= |submitted| && channel == submitted[taken..]
    }

    ghost function View(): State
      reads this
    {
      State(files, synced, nextSeq, if stopped then Stopped else Idle, found, submitted, taken, acked)
    }

    /** Takes over the log as the last opening left it. */
    constructor (c: Config, maxBytes: nat, s: State)
      requires s.files != [] && s.pc == Idle && s.submitted == [] && s.taken == 0 && s.acked == 0
      ensures Valid() && View() == s && this.c == c && this.maxBytes == maxBytes
    {
      this.c, this.maxBytes := c, maxBytes;
      files, synced, nextSeq, stopped, channel := s.files, s.synced, s.nextSeq, false, [];
      found, submitted, taken, acked := s.found, [], 0, 0;
    }

    /** `submit` and `submit_batch`: an empty batch is answered at once and never sent. */
    method SubmitCommit(commit: seq<WalEntry>) returns (sent: bool)
      requires Valid()
      modifies this
      ensures Valid() && View() == Step(c, old(View()), Submit(commit))
      ensures sent <==> !old(stopped) && commit != []
    {
      sent := !stopped && commit != [];
      if sent {
        channel, submitted := channel + [commit], submitted + [commit];
      }
    }

    /** How many commits one round collects: it stops at the byte limit, when the interval is over,
        or when the channel is empty. */
    method Collect(elapsed: nat -> bool) returns (k: nat, entries: seq<WalEntry>)
      requires Valid() && channel != []
      ensures 1 <= k <= |channel| && entries == Flatten(channel[..k])
      ensures forall j :: 1 <= j < k ==> TotalSize(Flatten(channel[..j])) < maxBytes && !elapsed(j)
      ensures k == |channel| || TotalSize(entries) >= maxBytes || elapsed(k)
    {
      k, entries := 1, channel[0];
      var bytes := TotalSize(channel[0]);
      assert channel[..1] == [channel[0]] && Flatten([channel[0]][1..]) == [];
      while k < |channel| && bytes < maxBytes && !elapsed(k)
        invariant 1 <= k <= |channel| && entries == Flatten(channel[..k]) && bytes == TotalSize(entries)
        invariant forall j :: 1 <= j < k ==> TotalSize(Flatten(channel[..j])) < maxBytes && !elapsed(j)
      {
        FlattenOneMore(channel[..k], channel[k]);
        TotalSizeJoin(entries, channel[k]);
        assert channel[..k + 1] == channel[..k] + [channel[k]];
        entries, bytes := entries + channel[k], bytes + TotalSize(channel[k]);
        k := k + 1;
      }
    }

    /** One round: collect, append and maybe rotate, sync, notify. After a failure the commits are
        answered with it and the loop ends. A write can break off anywhere up to its end. */
    method RunOnce(elapsed: nat -> bool, now: nat, io: Io) returns (k: nat, happened: Io, ok: bool)
      requires Valid() && channel != [] && !stopped
      modifies this
      ensures Valid() && 1 <= k && View() == Round(c, old(View()), k, now, happened)
      ensures happened == io || (io.WriteBreaks? && (happened.WriteBreaks? || stopped))
      ensures ok <==> !stopped
      ensures ok ==> io.Succeeds? && acked == old(acked) + k
      ensures !ok ==> acked == old(acked)
    {
      hide EncodeHeader, EncodeAll, Number, Flatten, Round, Step;
      var entries;
      k, entries := Collect(elapsed);
      ghost var s := View();
      assert channel[..k] == submitted[taken..taken + k];
      if nextSeq + |entries| >= U64 {
        channel, taken, stopped := channel[k..], taken + k, true;
        ok, happened := false, if io.WriteBreaks? then RotateBreaks else io;
        RoundOverflows(c, s, k, now, happened);
      } else {
        happened, ok := io, false;
        if io.WriteBreaks? {
          happened := TornWrite(k, entries, now, io.cut);
        } else {
          ok := Persist(k, entries, now, io);
        }
      }
    }

    /** The append breaks off, and the loop ends. */
    method TornWrite(k: nat, entries: seq<WalEntry>, now: nat, limit: nat) returns (happened: Io)
      requires Valid() && !stopped && 1 <= k <= |channel| && entries == BatchOf(View(), k) && nextSeq + |entries| < U64
      modifies this
      ensures Valid() && View() == Round(c, old(View()), k, now, happened)
      ensures happened.WriteBreaks? && stopped && acked == old(acked)
    {
      hide EncodeHeader, EncodeAll, Number, Flatten, Round, Step;
      var bytes := EncodeBatch(c.crc, Number(entries, nextSeq));
      var cut := if limit <= |bytes| then limit else |bytes|;
      RoundBreaksOff(c, View(), k, now, cut);
      channel, taken := channel[k..], taken + k;
      files := AppendToLast(files, bytes[..cut]);
      stopped := true;
      happened := WriteBreaks(cut);
    }

    /** Append, rotate when the segment is full, sync, acknowledge. */
    method Persist(k: nat, entries: seq<WalEntry>, now: nat, io: Io) returns (ok: bool)
      requires Valid() && !stopped && 1 <= k <= |channel| && entries == BatchOf(View(), k) && nextSeq + |entries| < U64
      requires !io.WriteBreaks?
      modifies this
      ensures Valid() && View() == Round(c, old(View()), k, now, io)
      ensures (ok <==> !stopped) && (ok <==> io.Succeeds?)
      ensures acked == old(acked) + (if ok then k else 0)
    {
      hide EncodeHeader, EncodeAll, Number, Flatten, Round, Step;
      RoundWrites(c, View(), k, now);
      ok := false;
      var bytes := EncodeBatch(c.crc, Number(entries, nextSeq));
      channel, taken := channel[k..], taken + k;
      files, nextSeq := AppendToLast(files, bytes), nextSeq + |entries|;
      if io.RotateBreaks? {
        stopped := true;
        return;
      }
      if |files[|files| - 1]| >= c.segmentTarget {
        files := files + [EncodeHeader(Header(|files| + 1, nextSeq, now))];
        synced := HEADER_SIZE;
      }
      if io.SyncBreaks? {
        stopped := true;
        return;
      }
      synced := |files[|files| - 1]|;
      acked := acked + k;
      ok := true;
    }
  }
}
