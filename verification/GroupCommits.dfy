/** The group commit loop in Sync mode over a segmented log, across crashes and reopenings
    (crates/flushdb-wal/src/group_commit.rs, wal_writer.rs and segment_writer.rs). Steps are single
    file operations, so a crash can fall between any two of them. */
module GroupCommits {
  import opened Wrappers
  import opened ByteStrings
  import opened Entries
  import opened WalEntries
  import opened WalSegments
  import opened WalReplay

  datatype Config = Config(crc: Bytes -> nat, segmentTarget: nat)

  /** Where the commit loop stands; a number counts the commits of the batch in hand. */
  datatype Pc =
    | Closed
    | Idle
    | Writing(batch: seq<WalEntry>, commits: nat)
    | Rotating(commits: nat)
    | Syncing(commits: nat)
    | Notifying(commits: nat)
    | Stopped

  /** The files, the synced length of the last one, and the loop; then the history of this opening:
      what the log held, the commits sent into the channel, those taken from it, and those
      acknowledged. */
  datatype State = State(
    files: seq<Bytes>,
    synced: nat,
    nextSeq: nat,
    pc: Pc,
    found: seq<WalEntry>,
    submitted: seq<seq<WalEntry>>,
    taken: nat,
    acked: nat)

  datatype Action =
    | Open(now: nat)
    | Submit(commit: seq<WalEntry>)
    | Take(count: nat)
    | Write
    | WriteFails(cut: nat)
    | Rotate(now: nat)
    | Sync
    | Notify
    | Fail
    | Crash(cut: nat)

  function Init(): State {
    State([], 0, 1, Closed, [], [], 0, 0)
  }

  /** `append_batch` stamps consecutive sequence numbers. */
  function Number(es: seq<WalEntry>, from: nat): (r: seq<WalEntry>)
    ensures |r| == |es| && forall i :: 0 <= i < |r| ==> r[i] == es[i].(seqno := from + i)
  {
    seq(|es|, i requires 0 <= i < |es| => es[i].(seqno := from + i))
  }

  function MaxSeq(es: seq<WalEntry>): Option<nat> {
    if es == [] then None
    else
      var rest := MaxSeq(es[..|es| - 1]);
      var last := es[|es| - 1].seqno;
      if rest.Some? && rest.value > last then rest else Some(last)
  }

  /** The scan of `open`, from the last segment back to one that holds entries. */
  function HighestSeq(crc: Bytes -> nat, files: seq<Bytes>): Result<Option<nat>> {
    if files == [] then Ok(None)
    else
      var data := files[|files| - 1];
      var header :- OpenSegment(data);
      var highest := MaxSeq(ReadAll(crc, data, HEADER_SIZE).entries);
      if highest.Some? then Ok(highest) else HighestSeq(crc, files[..|files| - 1])
  }

  function NewFile(s: State, next: nat, now: nat): seq<Bytes> {
    s.files + [EncodeHeader(Header(|s.files| + 1, next, now))]
  }

  function AppendToLast(files: seq<Bytes>, b: Bytes): seq<Bytes>
    requires files != []
  {
    files[|files| - 1 := files[|files| - 1] + b]
  }

  /** A crash cuts the last segment at or after what was synced. */
  predicate CanCut(s: State, cut: nat) {
    s.files != [] && s.synced <= cut <= |s.files[|s.files| - 1]|
  }

  function CutLast(files: seq<Bytes>, cut: nat): seq<Bytes>
    requires files != [] && cut <= |files[|files| - 1]|
  {
    files[|files| - 1 := files[|files| - 1][..cut]]
  }

  function Step(c: Config, s: State, a: Action): State {
    match a
    case Open(now) =>
      if !s.pc.Closed? then s
      else
        (match HighestSeq(c.crc, s.files)
         case Err(_) => s
         case Ok(highest) =>
           var next := if highest.None? then 1 else highest.value + 1;
           if next >= U64 then s
           else State(NewFile(s, next, now), HEADER_SIZE, next, Idle, ReplayRest(c.crc, s.files, 0, None).entries, [], 0, 0))
    case Submit(commit) =>
      if s.pc.Closed? || s.pc.Stopped? || commit == [] then s else s.(submitted := s.submitted + [commit])
    case Take(count) =>
      if s.pc.Idle? && 1 <= count && s.taken + count <= |s.submitted| then
        s.(pc := Writing(Flatten(s.submitted[s.taken..s.taken + count]), count), taken := s.taken + count)
      else s
    case Write =>
      if !s.pc.Writing? || s.files == [] then s
      else if s.nextSeq + |s.pc.batch| >= U64 then s.(pc := Stopped)
      else
        s.(files := AppendToLast(s.files, EncodeAll(c.crc, Number(s.pc.batch, s.nextSeq))),
           nextSeq := s.nextSeq + |s.pc.batch|, pc := Rotating(s.pc.commits))
    case WriteFails(cut) =>
      if !s.pc.Writing? || s.files == [] || s.nextSeq + |s.pc.batch| >= U64 then s
      else
        var bytes := EncodeAll(c.crc, Number(s.pc.batch, s.nextSeq));
        if cut > |bytes| then s else s.(files := AppendToLast(s.files, bytes[..cut]), pc := Stopped)
    case Rotate(now) =>
      if !s.pc.Rotating? || s.files == [] then s
      else if |s.files[|s.files| - 1]| >= c.segmentTarget then
        s.(files := NewFile(s, s.nextSeq, now), synced := HEADER_SIZE, pc := Syncing(s.pc.commits))
      else s.(pc := Syncing(s.pc.commits))
    case Sync =>
      if !s.pc.Syncing? || s.files == [] then s
      else s.(synced := |s.files[|s.files| - 1]|, pc := Notifying(s.pc.commits))
    case Notify => if s.pc.Notifying? then s.(acked := s.acked + s.pc.commits, pc := Idle) else s
    case Fail => if s.pc.Writing? || s.pc.Rotating? || s.pc.Syncing? then s.(pc := Stopped) else s
    case Crash(cut) => if CanCut(s, cut) && !s.pc.Closed? then s.(files := CutLast(s.files, cut), pc := Closed) else s
  }

  function Run(c: Config, actions: seq<Action>): State {
    if actions == [] then Init() else Step(c, Run(c, actions[..|actions| - 1]), actions[|actions| - 1])
  }

  /** Field lengths fit their prefixes, in every submitted entry. */
  predicate Writable(es: seq<WalEntry>) {
    forall i :: 0 <= i < |es| ==> Encodable(es[i].(seqno := 0))
  }

  predicate Fits(actions: seq<Action>) {
    forall i :: 0 <= i < |actions| && actions[i].Submit? ==> Writable(actions[i].commit)
  }

  // --- The invariant ---

  /** Entries are numbered 1, 2, ... across all segments, and each header says where its begin. */
  ghost predicate Consecutive(parts: seq<Part>) {
    && (forall k :: 0 <= k < |All(parts)| ==> All(parts)[k].seqno == k + 1)
    && (forall i :: 0 <= i < |parts| ==> parts[i].start == 1 + |All(parts[..i])|)
  }

  /** Everything that the log held or will hold of what has been submitted so far, as numbered. */
  function Whole(s: State): seq<WalEntry> {
    s.found + Number(Flatten(s.submitted), |s.found| + 1)
  }

  /** How many of the submitted commits' entries are in the files, outside a write. */
  function Written(s: State): nat
    requires s.pc.Writing? ==> s.pc.commits <= s.taken
    requires s.taken <= |s.submitted|
  {
    |Flatten(s.submitted[..if s.pc.Writing? then s.taken - s.pc.commits else s.taken])|
  }

  ghost predicate Counters(s: State) {
    && s.acked <= s.taken <= |s.submitted|
    && (s.pc.Idle? ==> s.acked == s.taken)
    && (s.pc.Writing? || s.pc.Rotating? || s.pc.Syncing? || s.pc.Notifying? ==> s.acked + s.pc.commits == s.taken)
    && (s.pc.Writing? ==> s.pc.batch == Flatten(s.submitted[s.acked..s.taken]))
    && (forall i :: 0 <= i < |s.submitted| ==> Writable(s.submitted[i]))
  }

  /** The synced length covers `m` entries of the last segment, and with them all that must last. */
  ghost predicate Covers(c: Config, s: State, parts: seq<Part>, m: nat)
    requires parts != [] && s.acked <= s.taken <= |s.submitted|
  {
    var last := parts[|parts| - 1];
    && m <= |last.es|
    && s.synced >= HEADER_SIZE + |EncodeAll(c.crc, last.es[..m])|
    && |All(parts[..|parts| - 1])| + m >= |s.found| + |Flatten(s.submitted[..Promised(s)])|
  }

  /** Commits that a crash must not lose: those acknowledged or about to be. */
  function Promised(s: State): nat
    requires s.acked <= s.taken <= |s.submitted|
    ensures s.acked <= Promised(s) <= s.taken
  {
    if s.pc.Notifying? then s.taken else s.acked
  }

  ghost predicate Durable(c: Config, s: State, parts: seq<Part>)
    requires parts != [] && s.acked <= s.taken <= |s.submitted|
  {
    exists m: nat :: Covers(c, s, parts, m)
  }

  ghost predicate LiveOk(c: Config, s: State, parts: seq<Part>) {
    && parts != []
    && Counters(s)
    && All(parts) <= Whole(s)
    && (!s.pc.Stopped? ==>
          && s.nextSeq < U64
          && parts[|parts| - 1].torn == []
          && |All(parts)| == |s.found| + Written(s)
          && s.nextSeq == |All(parts)| + 1)
    && Durable(c, s, parts)
  }

  ghost predicate Inv(c: Config, s: State, parts: seq<Part>) {
    && Shape(c.crc, s.files, parts)
    && Consecutive(parts)
    && (!s.pc.Closed? ==> LiveOk(c, s, parts))
  }

  // --- Sequence facts ---

  lemma {:induction false} AllAppend(a: seq<Part>, b: seq<Part>)
    ensures All(a + b) == All(a) + All(b)
  {
    if a == [] {
      assert a + b == b;
    } else {
      assert (a + b)[1..] == a[1..] + b;
      AllAppend(a[1..], b);
    }
  }

  lemma AllSnoc(parts: seq<Part>)
    requires parts != []
    ensures All(parts) == All(parts[..|parts| - 1]) + parts[|parts| - 1].es
  {
    var n := |parts| - 1;
    assert parts == parts[..n] + [parts[n]];
    AllAppend(parts[..n], [parts[n]]);
    assert All([parts[n]][1..]) == [];
  }

  lemma FlattenTo<T>(s: seq<seq<T>>, i: nat, j: nat)
    requires i <= j <= |s|
    ensures Flatten(s[..j]) == Flatten(s[..i]) + Flatten(s[i..j])
    ensures Flatten(s[..i]) <= Flatten(s[..j])
    ensures Flatten(s[..j]) <= Flatten(s)
  {
    hide Flatten;
    assert s[..j] == s[..i] + s[i..j] && s == s[..j] + s[j..];
    FlattenAppend(s[..i], s[i..j]);
    FlattenAppend(s[..j], s[j..]);
  }

  lemma NumberAppend(a: seq<WalEntry>, b: seq<WalEntry>, from: nat)
    ensures Number(a + b, from) == Number(a, from) + Number(b, from + |a|)
  {
  }

  lemma {:induction false} FlattenWritable(s: seq<seq<WalEntry>>)
    requires forall i :: 0 <= i < |s| ==> Writable(s[i])
    ensures Writable(Flatten(s))
  {
    if s != [] {
      assert forall i :: 0 <= i < |s[1..]| ==> s[1..][i] == s[i + 1];
      FlattenWritable(s[1..]);
    }
  }

  lemma NumberedEncodable(es: seq<WalEntry>, from: nat)
    requires Writable(es) && from + |es| < U64
    ensures AllEncodable(Number(es, from))
  {
    forall i | 0 <= i < |es|
      ensures Encodable(Number(es, from)[i])
    {
      assert Encodable(es[i].(seqno := 0));
    }
  }

  // --- Replacing or adding the last segment ---

  lemma LastReplaced(parts: seq<Part>, p: Part)
    requires parts != []
    ensures var n := |parts| - 1; var out := parts[n := p];
            && out[..n] == parts[..n] && All(out) == All(parts[..n]) + p.es
            && forall i :: 0 <= i <= n ==> out[..i] == parts[..i]
  {
    var n := |parts| - 1;
    var out := parts[n := p];
    assert out[..n] == parts[..n];
    AllSnoc(out);
    forall i | 0 <= i <= n
      ensures out[..i] == parts[..i]
    {
    }
  }

  lemma {:induction false} ConsecutiveReplaced(parts: seq<Part>, p: Part)
    requires Consecutive(parts) && parts != [] && p.start == parts[|parts| - 1].start
    requires forall j :: 0 <= j < |p.es| ==> p.es[j].seqno == |All(parts[..|parts| - 1])| + j + 1
    ensures Consecutive(parts[|parts| - 1 := p])
  {
    LastReplaced(parts, p);
    AllSnoc(parts);
    var out, before := parts[|parts| - 1 := p], All(parts[..|parts| - 1]);
    forall k | 0 <= k < |All(out)|
      ensures All(out)[k].seqno == k + 1
    {
      assert k < |before| ==> All(out)[k] == All(parts)[k];
      assert k >= |before| ==> All(out)[k] == p.es[k - |before|];
    }
  }

  lemma ConsecutiveAdded(parts: seq<Part>, p: Part)
    requires Consecutive(parts) && p.es == [] && p.start == 1 + |All(parts)|
    ensures Consecutive(parts + [p]) && All(parts + [p]) == All(parts)
  {
    var out := parts + [p];
    AllSnoc(out);
    assert out[..|parts|] == parts;
    forall i | 0 <= i < |out|
      ensures out[i].start == 1 + |All(out[..i])|
    {
      assert i <= |parts| && out[..i] == parts[..i];
      assert parts[..|parts|] == parts;
    }
  }

  lemma ShapeReplaced(crc: Bytes -> nat, files: seq<Bytes>, parts: seq<Part>, p: Part)
    requires Shape(crc, files, parts) && parts != [] && PartOk(crc, p)
    ensures Shape(crc, files[|files| - 1 := FileOf(crc, p)], parts[|parts| - 1 := p])
  {
  }

  lemma ShapeAdded(crc: Bytes -> nat, files: seq<Bytes>, parts: seq<Part>, start: nat, now: nat)
    requires Shape(crc, files, parts) && start < U64
    ensures Shape(crc, files + [EncodeHeader(Header(|files| + 1, start, now))], parts + [Part(|files| + 1, start, now, [], [])])
  {
    hide EncodeHeader;
    var p := Part(|files| + 1, start, now, [], []);
    assert PartOk(crc, p);
    assert FileOf(crc, p) == EncodeHeader(Header(|files| + 1, start, now));
    hide PartOk, FileOf;
  }

  // --- Opening ---

  lemma {:induction false} MaxSeqOfRun(es: seq<WalEntry>, from: nat)
    requires es != [] && forall i :: 0 <= i < |es| ==> es[i].seqno == from + i
    ensures MaxSeq(es) == Some(from + |es| - 1)
  {
    if |es| > 1 {
      MaxSeqOfRun(es[..|es| - 1], from);
    }
  }

  lemma MaxSeqOfNone()
    ensures MaxSeq([]) == None
  {
  }

  lemma AllOfNone()
    ensures All([]) == []
  {
  }

  /** The scan finds the number of entries in the log, which is the last sequence number. */
  lemma {:induction false} HighestIsCount(crc: Bytes -> nat, files: seq<Bytes>, parts: seq<Part>)
    requires CrcFits(crc) && Shape(crc, files, parts)
    requires forall k :: 0 <= k < |All(parts)| ==> All(parts)[k].seqno == k + 1
    ensures HighestSeq(crc, files) == Ok(if All(parts) == [] then None else Some(|All(parts)|))
    decreases |files|
  {
    hide FileOf, PartOk, ReadAll, OpenSegment, MaxSeq, All;
    if files == [] {
      AllOfNone();
    } else {
      var n := |files| - 1;
      assert PartOk(crc, parts[n]);
      ReadsPart(crc, parts[n]);
      AllSnoc(parts);
      var before, es := All(parts[..n]), parts[n].es;
      MaxSeqOfNone();
      if es == [] {
        assert All(parts) == before;
        HighestIsCount(crc, files[..n], parts[..n]);
      } else {
        forall i | 0 <= i < |es|
          ensures es[i].seqno == |before| + 1 + i
        {
          assert All(parts)[|before| + i] == es[i];
        }
        MaxSeqOfRun(es, |before| + 1);
      }
    }
  }

  lemma OpenKeeps(c: Config, s: State, parts: seq<Part>, now: nat) returns (out: seq<Part>)
    requires CrcFits(c.crc) && Inv(c, s, parts) && s.pc.Closed?
    ensures Inv(c, Step(c, s, Open(now)), out)
  {
    hide ReadAll, OpenSegment, EncodeHeader, FileOf, PartOk, ReplayRest, HighestSeq, Filter, Shape, All;
    HighestIsCount(c.crc, s.files, parts);
    var next := |All(parts)| + 1;
    if next >= U64 {
      out := parts;
    } else {
      ReplayRestIsFilter(c.crc, s.files, parts, 0, None);
      assert parts[0..] == parts;
      FilterAll(All(parts));
      var p := Part(|s.files| + 1, next, now, [], []);
      ShapeAdded(c.crc, s.files, parts, next, now);
      ConsecutiveAdded(parts, p);
      out := parts + [p];
      var t := State(NewFile(s, next, now), HEADER_SIZE, next, Idle, All(parts), [], 0, 0);
      assert out[..|parts|] == parts && out[|parts|] == p;
      hide Consecutive;
      AllOfNone();
      assert Covers(c, t, out, 0);
      assert Whole(t) == All(parts);
      assert Step(c, s, Open(now)) == t;
    }
  }

  // --- The other steps ---

  lemma SubmitKeeps(c: Config, s: State, parts: seq<Part>, commit: seq<WalEntry>)
    requires Inv(c, s, parts) && Writable(commit)
    ensures Inv(c, Step(c, s, Submit(commit)), parts)
  {
    hide Shape, Consecutive, EncodeAll, All, Writable;
    var t := Step(c, s, Submit(commit));
    if t != s {
      FlattenAppend(s.submitted, [commit]);
      assert Flatten([commit][1..]) == [];
      NumberAppend(Flatten(s.submitted), commit, |s.found| + 1);
      assert Whole(s) <= Whole(t);
      hide Flatten, Number, Whole;
      assert forall i :: 0 <= i <= |s.submitted| ==> t.submitted[..i] == s.submitted[..i];
      assert s.pc.Writing? ==> t.submitted[s.acked..s.taken] == s.submitted[s.acked..s.taken];
      var m: nat :| Covers(c, s, parts, m);
      assert Covers(c, t, parts, m);
    }
  }

  lemma TakeKeeps(c: Config, s: State, parts: seq<Part>, count: nat)
    requires Inv(c, s, parts)
    ensures Inv(c, Step(c, s, Take(count)), parts)
  {
    hide Shape, Consecutive, EncodeAll, All, Writable, Flatten, Number;
    var t := Step(c, s, Take(count));
    if t != s {
      var m: nat :| Covers(c, s, parts, m);
      assert Covers(c, t, parts, m);
    }
  }

  /** Adding numbered entries and a torn tail to the last segment. */
  lemma AppendKeeps(c: Config, s: State, parts: seq<Part>, k: nat, t: Bytes) returns (out: seq<Part>)
    requires Inv(c, s, parts) && s.pc.Writing? && s.nextSeq + |s.pc.batch| < U64
    requires k <= |s.pc.batch| && Torn(c.crc, t)
    ensures var bytes := EncodeAll(c.crc, Number(s.pc.batch, s.nextSeq)[..k]) + t;
            s.files != [] && Shape(c.crc, AppendToLast(s.files, bytes), out)
    ensures Consecutive(out) && |out| == |parts| && out[..|out| - 1] == parts[..|parts| - 1]
    ensures out[|out| - 1].es == parts[|parts| - 1].es + Number(s.pc.batch, s.nextSeq)[..k] && out[|out| - 1].torn == t
    ensures All(out) == All(parts) + Number(s.pc.batch, s.nextSeq)[..k]
  {
    hide FileOf, PartOk, Shape, Torn, EncodeAll, All, Flatten, Writable;
    ShapeLast(c.crc, s.files, parts);
    var n := |parts| - 1;
    var last := parts[n];
    var added := Number(s.pc.batch, s.nextSeq)[..k];
    var p := last.(es := last.es + added, torn := t);
    out := parts[n := p];
    BatchEncodable(s);
    PartGrows(c.crc, last, added, t);
    ShapeReplaced(c.crc, s.files, parts, p);
    AllSnoc(parts);
    LastReplaced(parts, p);
    forall j | 0 <= j < |p.es|
      ensures p.es[j].seqno == |All(parts[..n])| + j + 1
    {
      if j < |last.es| {
        assert All(parts)[|All(parts[..n])| + j] == last.es[j];
      }
    }
    ConsecutiveReplaced(parts, p);
  }

  lemma PartGrows(crc: Bytes -> nat, last: Part, added: seq<WalEntry>, t: Bytes)
    requires PartOk(crc, last) && last.torn == [] && AllEncodable(added) && Torn(crc, t)
    ensures var p := last.(es := last.es + added, torn := t);
            PartOk(crc, p) && FileOf(crc, p) == FileOf(crc, last) + (EncodeAll(crc, added) + t)
  {
    hide EncodeHeader, Torn, EncodeAll, Encodable;
    EncodeAllAppend(crc, last.es, added);
  }

  lemma BatchEncodable(s: State)
    requires Counters(s) && s.pc.Writing? && s.nextSeq + |s.pc.batch| < U64
    ensures AllEncodable(Number(s.pc.batch, s.nextSeq))
  {
    FlattenWritable(s.submitted[s.acked..s.taken]);
    NumberedEncodable(s.pc.batch, s.nextSeq);
  }

  lemma NumberedFollows(found: seq<WalEntry>, before: seq<WalEntry>, batch: seq<WalEntry>, rest: seq<WalEntry>, all: seq<WalEntry>)
    requires var whole := found + Number(before + batch + rest, |found| + 1); all <= whole && |all| == |found| + |before|
    ensures all + Number(batch, |all| + 1) <= found + Number(before + batch + rest, |found| + 1)
  {
    NumberAppend(before + batch, rest, |found| + 1);
    NumberAppend(before, batch, |found| + 1);
    hide Number;
    assert all == found + Number(before, |found| + 1);
  }

  /** The batch in hand is what follows in the submitted order. */
  lemma BatchFollows(s: State, all: seq<WalEntry>)
    requires Counters(s) && s.pc.Writing?
    requires all <= Whole(s) && |all| == |s.found| + Written(s) && s.nextSeq == |all| + 1
    ensures all + Number(s.pc.batch, s.nextSeq) <= Whole(s)
    ensures |all| + |s.pc.batch| == |s.found| + |Flatten(s.submitted[..s.taken])|
  {
    hide Flatten, Number, Writable;
    var before, batch := Flatten(s.submitted[..s.acked]), s.pc.batch;
    FlattenTo(s.submitted, s.acked, s.taken);
    FlattenTo(s.submitted, s.taken, |s.submitted|);
    var rest := Flatten(s.submitted[s.taken..|s.submitted|]);
    assert s.submitted[..|s.submitted|] == s.submitted;
    NumberedFollows(s.found, before, batch, rest, all);
  }

  lemma WriteKeeps(c: Config, s: State, parts: seq<Part>) returns (out: seq<Part>)
    requires Inv(c, s, parts)
    ensures Inv(c, Step(c, s, Write), out)
  {
    hide Shape, Consecutive, All, EncodeAll, Flatten, Writable, AppendToLast;
    if !s.pc.Writing? || s.files == [] {
      out := parts;
    } else if s.nextSeq + |s.pc.batch| >= U64 {
      out := parts;
      StopKeeps(c, s, parts);
    } else {
      var all := Number(s.pc.batch, s.nextSeq);
      NothingTorn(c.crc);
      out := AppendKeeps(c, s, parts, |all|, []);
      assert all[..|all|] == all;
      BatchFollows(s, All(parts));
      var t := Step(c, s, Write);
      assert EncodeAll(c.crc, all) + [] == EncodeAll(c.crc, all);
      CoversExtended(c, s, t, parts, out);
      hide Durable, Number;
    }
  }

  lemma NothingTorn(crc: Bytes -> nat)
    ensures Torn(crc, [])
  {
  }

  /** What was covered stays covered when the last segment grows. */
  lemma CoversExtended(c: Config, s: State, t: State, parts: seq<Part>, out: seq<Part>)
    requires parts != [] && s.acked <= s.taken <= |s.submitted| && Durable(c, s, parts)
    requires |out| == |parts| && out[..|out| - 1] == parts[..|parts| - 1]
    requires parts[|parts| - 1].es <= out[|out| - 1].es
    requires t.synced == s.synced && t.found == s.found && t.submitted == s.submitted && t.acked == s.acked && t.taken == s.taken
    requires Promised(t) == Promised(s)
    ensures Durable(c, t, out)
  {
    var m: nat :| Covers(c, s, parts, m);
    assert out[|out| - 1].es[..m] == parts[|parts| - 1].es[..m];
    assert Covers(c, t, out, m);
  }

  lemma StopKeeps(c: Config, s: State, parts: seq<Part>)
    requires Inv(c, s, parts) && (s.pc.Writing? || s.pc.Rotating? || s.pc.Syncing?)
    ensures Inv(c, s.(pc := Stopped), parts)
  {
    hide Shape, Consecutive, All, Flatten, EncodeAll;
    CoversExtended(c, s, s.(pc := Stopped), parts, parts);
  }

  lemma WriteFailsKeeps(c: Config, s: State, parts: seq<Part>, cut: nat) returns (out: seq<Part>)
    requires Inv(c, s, parts)
    ensures Inv(c, Step(c, s, WriteFails(cut)), out)
  {
    out := parts;
    hide Shape, Consecutive, All, EncodeAll, Flatten, Writable, AppendToLast, Torn;
    if s.pc.Writing? && s.files != [] && s.nextSeq + |s.pc.batch| < U64 {
      var all := Number(s.pc.batch, s.nextSeq);
      BatchEncodable(s);
      if cut <= |EncodeAll(c.crc, all)| {
        var k, tail := CutLeavesPrefix(c.crc, all, cut);
        out := AppendKeeps(c, s, parts, k, tail);
        BatchFollows(s, All(parts));
        var t := Step(c, s, WriteFails(cut));
        assert t == s.(files := AppendToLast(s.files, EncodeAll(c.crc, all[..k]) + tail), pc := Stopped);
        CoversExtended(c, s, t, parts, out);
        hide Durable, Number;
      }
    }
  }

  lemma RotateKeeps(c: Config, s: State, parts: seq<Part>, now: nat) returns (out: seq<Part>)
    requires CrcFits(c.crc) && Inv(c, s, parts)
    ensures Inv(c, Step(c, s, Rotate(now)), out)
  {
    out := parts;
    hide Shape, EncodeAll, All, Flatten, Number, EncodeHeader;
    if s.pc.Rotating? && s.files != [] {
      var t := Step(c, s, Rotate(now));
      if |s.files[|s.files| - 1]| >= c.segmentTarget {
        var p := Part(|s.files| + 1, s.nextSeq, now, [], []);
        ShapeAdded(c.crc, s.files, parts, s.nextSeq, now);
        ConsecutiveAdded(parts, p);
        out := parts + [p];
        hide Consecutive;
        FlattenTo(s.submitted, s.acked, s.taken);
        assert out[..|out| - 1] == parts && p.es[..0] == [];
        NothingEncoded(c.crc);
        assert Covers(c, t, out, 0);
      } else {
        CoversExtended(c, s, t, parts, parts);
      }
    }
  }

  lemma NothingEncoded(crc: Bytes -> nat)
    ensures EncodeAll(crc, []) == []
  {
  }

  lemma ShapeLength(c: Config, files: seq<Bytes>, parts: seq<Part>)
    requires Shape(c.crc, files, parts)
    ensures |files| == |parts|
  {
  }

  lemma LastLength(c: Config, files: seq<Bytes>, parts: seq<Part>)
    requires Shape(c.crc, files, parts) && parts != [] && parts[|parts| - 1].torn == []
    ensures |files[|files| - 1]| == HEADER_SIZE + |EncodeAll(c.crc, parts[|parts| - 1].es)|
  {
    hide EncodeHeader, EncodeAll, PartOk;
    var n := |parts| - 1;
    assert files[n] == FileOf(c.crc, parts[n]);
  }

  lemma SyncKeeps(c: Config, s: State, parts: seq<Part>)
    requires Inv(c, s, parts)
    ensures Inv(c, Step(c, s, Sync), parts)
  {
    hide Shape, Consecutive, All, Flatten, Number, EncodeAll, Writable;
    if s.pc.Syncing? && s.files != [] {
      var t := Step(c, s, Sync);
      var last := parts[|parts| - 1];
      AllSnoc(parts);
      LastLength(c, s.files, parts);
      assert last.es[..|last.es|] == last.es;
      ShapeLength(c, s.files, parts);
      assert Covers(c, t, parts, |last.es|);
    }
  }

  lemma NotifyKeeps(c: Config, s: State, parts: seq<Part>)
    requires Inv(c, s, parts)
    ensures Inv(c, Step(c, s, Notify), parts)
  {
    hide Shape, Consecutive, All, Flatten, Number, EncodeAll;
    if s.pc.Notifying? {
      var t := Step(c, s, Notify);
      var m: nat :| Covers(c, s, parts, m);
      assert Covers(c, t, parts, m);
    }
  }

  // --- Crashes ---

  lemma TornShorter(crc: Bytes -> nat, t: Bytes, n: nat)
    requires Torn(crc, t) && n <= |t|
    ensures Torn(crc, t[..n])
  {
    hide Encode;
    if t != [] {
      var e :| Encodable(e) && t < Encode(crc, e);
      assert t[..n] < Encode(crc, e);
    }
  }

  /** A cut outside the header leaves a prefix of the segment's entries and a torn tail. */
  lemma {:induction false} CutPart(crc: Bytes -> nat, p: Part, cut: nat) returns (k: nat, t: Bytes)
    requires PartOk(crc, p) && HEADER_SIZE <= cut <= |FileOf(crc, p)|
    ensures k <= |p.es| && Torn(crc, t)
    ensures FileOf(crc, p)[..cut] == FileOf(crc, p.(es := p.es[..k], torn := t))
    ensures forall m :: 0 <= m <= |p.es| && HEADER_SIZE + |EncodeAll(crc, p.es[..m])| <= cut ==> m <= k
  {
    hide EncodeHeader, EncodeAll, Torn, Encodable;
    var header := EncodeHeader(Header(p.number, p.start, p.createdAt));
    var body := EncodeAll(crc, p.es);
    var at := cut - HEADER_SIZE;
    if at <= |body| {
      k, t := CutLeavesPrefix(crc, p.es, at);
      assert FileOf(crc, p)[..cut] == header + body[..at];
      assert header + (EncodeAll(crc, p.es[..k]) + t) == header + EncodeAll(crc, p.es[..k]) + t;
    } else {
      k, t := |p.es|, p.torn[..at - |body|];
      TornShorter(crc, p.torn, at - |body|);
      assert p.es[..k] == p.es;
      assert FileOf(crc, p)[..cut] == header + body + t;
    }
  }

  /** After a cut at or beyond the synced length the log holds a prefix of what was submitted,
      with everything promised in it. */
  lemma {:induction false} CutLog(c: Config, s: State, parts: seq<Part>, cut: nat) returns (out: seq<Part>)
    requires Inv(c, s, parts) && !s.pc.Closed? && CanCut(s, cut)
    ensures Shape(c.crc, CutLast(s.files, cut), out) && Consecutive(out)
    ensures All(out) <= Whole(s) && s.acked <= s.taken <= |s.submitted|
    ensures |All(out)| >= |s.found| + |Flatten(s.submitted[..Promised(s)])|
  {
    hide Flatten, EncodeAll, FileOf, PartOk, Shape, Number, All, Writable, Torn, Counters, Whole;
    ShapeLast(c.crc, s.files, parts);
    assert s.acked <= s.taken <= |s.submitted| by {
      CountersOrdered(s);
    }
    var n := |parts| - 1;
    var last := parts[n];
    var m: nat :| Covers(c, s, parts, m);
    var k, t := CutPart(c.crc, last, cut);
    var p := last.(es := last.es[..k], torn := t);
    CutPartOk(c.crc, last, k, t);
    ShapeReplaced(c.crc, s.files, parts, p);
    out := parts[n := p];
    AllSnoc(parts);
    LastReplaced(parts, p);
    assert All(out) <= All(parts);
    forall j | 0 <= j < |p.es|
      ensures p.es[j].seqno == |All(parts[..n])| + j + 1
    {
      assert All(parts)[|All(parts[..n])| + j] == p.es[j];
    }
    ConsecutiveReplaced(parts, p);
    assert m <= k;
  }

  lemma CountersOrdered(s: State)
    requires Counters(s)
    ensures s.acked <= s.taken <= |s.submitted|
  {
  }

  lemma ShapeLast(crc: Bytes -> nat, files: seq<Bytes>, parts: seq<Part>)
    requires Shape(crc, files, parts) && parts != []
    ensures var n := |parts| - 1;
            |files| == |parts| && PartOk(crc, parts[n]) && files[n] == FileOf(crc, parts[n])
  {
  }

  lemma CutPartOk(crc: Bytes -> nat, p: Part, k: nat, t: Bytes)
    requires PartOk(crc, p) && k <= |p.es| && Torn(crc, t)
    ensures PartOk(crc, p.(es := p.es[..k], torn := t))
  {
    hide Torn, Encodable;
  }

  lemma {:induction false} CrashKeeps(c: Config, s: State, parts: seq<Part>, cut: nat) returns (out: seq<Part>)
    requires Inv(c, s, parts)
    ensures Inv(c, Step(c, s, Crash(cut)), out)
  {
    hide Shape, Consecutive, LiveOk;
    out := parts;
    if CanCut(s, cut) && !s.pc.Closed? {
      out := CutLog(c, s, parts, cut);
    }
  }

  lemma {:induction false} StepKeeps(c: Config, s: State, parts: seq<Part>, a: Action) returns (out: seq<Part>)
    requires CrcFits(c.crc) && Inv(c, s, parts)
    requires a.Submit? ==> Writable(a.commit)
    ensures Inv(c, Step(c, s, a), out)
  {
    hide Inv, Writable;
    out := parts;
    match a
    case Open(now) =>
      if s.pc.Closed? {
        out := OpenKeeps(c, s, parts, now);
      }
    case Submit(commit) => SubmitKeeps(c, s, parts, commit);
    case Take(count) => TakeKeeps(c, s, parts, count);
    case Write => out := WriteKeeps(c, s, parts);
    case WriteFails(cut) => out := WriteFailsKeeps(c, s, parts, cut);
    case Rotate(now) => out := RotateKeeps(c, s, parts, now);
    case Sync => SyncKeeps(c, s, parts);
    case Notify => NotifyKeeps(c, s, parts);
    case Fail =>
      if s.pc.Writing? || s.pc.Rotating? || s.pc.Syncing? {
        StopKeeps(c, s, parts);
      }
    case Crash(cut) => out := CrashKeeps(c, s, parts, cut);
  }

  lemma {:induction false} RunKeeps(c: Config, actions: seq<Action>) returns (parts: seq<Part>)
    requires CrcFits(c.crc) && Fits(actions)
    ensures Inv(c, Run(c, actions), parts)
  {
    if actions == [] {
      parts := [];
    } else {
      var before := actions[..|actions| - 1];
      assert Fits(before) by {
        assert forall i :: 0 <= i < |before| ==> before[i] == actions[i];
      }
      parts := RunKeeps(c, before);
      hide Inv, Step;
      parts := StepKeeps(c, Run(c, before), parts, actions[|actions| - 1]);
    }
  }

  // --- What a crash leaves ---

  /** Consecutive sequence numbers from 1. */
  ghost predicate NumberedFromOne(es: seq<WalEntry>) {
    forall k :: 0 <= k < |es| ==> es[k].seqno == k + 1
  }

  /** Durability of acknowledged commits. After any run, however often the log crashed and was
      reopened, and for a crash now at any cut: replay succeeds; it returns what this opening found
      plus a prefix of what was submitted since, in channel order, numbered consecutively; and every
      acknowledged commit is in it, rotations included. */
  lemma {:induction false} AcknowledgedCommitsSurvive(c: Config, actions: seq<Action>, cut: nat) returns (es: seq<WalEntry>)
    requires CrcFits(c.crc) && Fits(actions)
    requires !Run(c, actions).pc.Closed? && CanCut(Run(c, actions), cut)
    ensures var s := Run(c, actions);
            && ReplayRest(c.crc, CutLast(s.files, cut), 0, None).Collected() == Ok(es)
            && es <= s.found + Number(Flatten(s.submitted), |s.found| + 1)
            && NumberedFromOne(es)
            && s.acked <= |s.submitted| && |es| >= |s.found| + |Flatten(s.submitted[..s.acked])|
  {
    hide Run, Inv, Fits, ReplayRest;
    var parts := RunKeeps(c, actions);
    es := SurvivesCut(c, Run(c, actions), parts, cut);
  }

  lemma {:induction false} SurvivesCut(c: Config, s: State, parts: seq<Part>, cut: nat) returns (es: seq<WalEntry>)
    requires CrcFits(c.crc) && Inv(c, s, parts) && !s.pc.Closed? && CanCut(s, cut)
    ensures ReplayRest(c.crc, CutLast(s.files, cut), 0, None).Collected() == Ok(es)
    ensures es <= s.found + Number(Flatten(s.submitted), |s.found| + 1)
    ensures NumberedFromOne(es)
    ensures s.acked <= |s.submitted| && |es| >= |s.found| + |Flatten(s.submitted[..s.acked])|
  {
    hide Inv, ReplayRest, Number, Flatten, All, Shape;
    var out := CutLog(c, s, parts, cut);
    ReplayAllDelivers(c.crc, CutLast(s.files, cut), out);
    es := All(out);
    FlattenTo(s.submitted, s.acked, Promised(s));
  }

  /** What an opening finds is what a replay of the files at that moment returns. */
  lemma {:induction false} OpeningFindsTheLog(c: Config, actions: seq<Action>, now: nat)
    requires CrcFits(c.crc) && Fits(actions)
    requires Run(c, actions).pc.Closed? && !Step(c, Run(c, actions), Open(now)).pc.Closed?
    ensures var s := Run(c, actions); var t := Step(c, s, Open(now));
            && ReplayRest(c.crc, s.files, 0, None).Collected() == Ok(t.found)
            && t.nextSeq == |t.found| + 1 && NumberedFromOne(t.found)
  {
    var s := Run(c, actions);
    var parts := RunKeeps(c, actions);
    hide Run, Fits;
    HighestIsCount(c.crc, s.files, parts);
    ReplayAllDelivers(c.crc, s.files, parts);
    hide HighestSeq, ReplayRest, Shape;
  }

  lemma {:induction false} ConsecutiveBounds(parts: seq<Part>)
    requires Consecutive(parts)
    ensures StartsBound(parts)
  {
    forall i | 0 <= i < |parts| - 1
      ensures EntriesBelow(parts[i].es, parts[i + 1].start)
    {
      var upTo := parts[..i + 1];
      AllSnoc(upTo);
      assert upTo[..i] == parts[..i];
      assert parts == upTo + parts[i + 1..];
      AllAppend(upTo, parts[i + 1..]);
      var before, es := All(parts[..i]), parts[i].es;
      forall j | 0 <= j < |es|
        ensures es[j].seqno < parts[i + 1].start
      {
        assert All(parts)[|before| + j] == es[j];
      }
    }
  }

  /** Segment skipping is invisible in every log that openings, appends, rotations and crashes can
      build, at any cut: for every minimum, `replay_from` is the filtered `replay_all`. */
  lemma {:induction false} SkippingIsInvisible(c: Config, actions: seq<Action>, m: nat)
    requires CrcFits(c.crc) && Fits(actions)
    ensures var files := Run(c, actions).files;
            && ReplayRest(c.crc, files, 0, None).Collected().Ok?
            && ReplayRest(c.crc, files, 0, Some(m)).Collected()
               == Ok(Filter(ReplayRest(c.crc, files, 0, None).Collected().value, Some(m)))
  {
    var parts := RunKeeps(c, actions);
    var files := Run(c, actions).files;
    hide Run, Fits, LiveOk;
    ConsecutiveBounds(parts);
    hide Shape, Consecutive, StartsBound;
    ReplayAllDelivers(c.crc, files, parts);
    BoundStartsHide(c.crc, files, parts);
  }
}
