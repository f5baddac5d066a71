/** Replay of a whole log, with and without segment skipping (crates/flushdb-wal/src/wal_reader.rs). */
module WalReplay {
  import opened Wrappers
  import opened ByteStrings
  import opened Entries
  import opened WalEntries
  import opened WalSegments

  // --- What replay delivers ---

  predicate Wanted(e: WalEntry, min: Option<nat>) {
    min.None? || e.seqno >= min.value
  }

  function Filter(es: seq<WalEntry>, min: Option<nat>): (r: seq<WalEntry>)
    ensures |r| <= |es|
  {
    if es == [] then [] else (if Wanted(es[0], min) then [es[0]] else []) + Filter(es[1..], min)
  }

  /** The skipping test: the next segment opens and starts at or below the wanted sequence. */
  predicate Skipped(files: seq<Bytes>, i: nat, min: Option<nat>) {
    && min.Some? && i + 1 < |files|
    && OpenSegment(files[i + 1]).Ok? && OpenSegment(files[i + 1]).value.start <= min.value
  }

  /** What is still to come from segment `i` on. */
  function ReplayRest(crc: Bytes -> nat, files: seq<Bytes>, i: nat, min: Option<nat>): Stream
    requires i <= |files|
    decreases |files| - i
  {
    if i == |files| then Stream([], None)
    else if Skipped(files, i, min) then ReplayRest(crc, files, i + 1, min)
    else
      match OpenSegment(files[i])
      case Err(e) => Stream([], Some(e))
      case Ok(_) => InSegment(crc, files, i + 1, HEADER_SIZE, min)
  }

  /** What is still to come from position `pos` of the segment before `next`. */
  function InSegment(crc: Bytes -> nat, files: seq<Bytes>, next: nat, pos: nat, min: Option<nat>): Stream
    requires 1 <= next <= |files| && pos <= |files[next - 1]|
    decreases |files| - next + 1, 0
  {
    var s := ReadAll(crc, files[next - 1], pos);
    if s.error.Some? then Stream(Filter(s.entries, min), s.error)
    else ReplayRest(crc, files, next, min).After(Filter(s.entries, min))
  }

  // --- The eager readers ---

  lemma {:induction false} FilterAppend(a: seq<WalEntry>, b: seq<WalEntry>, min: Option<nat>)
    ensures Filter(a + b, min) == Filter(a, min) + Filter(b, min)
  {
    if a == [] {
      assert a + b == b;
    } else {
      assert (a + b)[1..] == a[1..] + b;
      FilterAppend(a[1..], b, min);
    }
  }

  lemma AfterTwice(s: Stream, a: seq<WalEntry>, b: seq<WalEntry>)
    ensures s.After(b).After(a) == s.After(a + b)
  {
    assert a + (b + s.entries) == a + b + s.entries;
  }

  /** The inner loop of a replay: the wanted entries of one segment. */
  method KeepWanted(es: seq<WalEntry>, min: Option<nat>) returns (kept: seq<WalEntry>)
    ensures kept == Filter(es, min)
  {
    kept := [];
    for j := 0 to |es|
      invariant kept == Filter(es[..j], min)
    {
      FilterAppend(es[..j], [es[j]], min);
      assert es[..j + 1] == es[..j] + [es[j]];
      assert Filter([es[j]][1..], min) == [];
      if Wanted(es[j], min) {
        kept := kept + [es[j]];
      }
    }
    assert es[..|es|] == es;
  }

  /** `replay_all` (no minimum) and `replay_from`. */
  method Replay(crc: Bytes -> nat, files: seq<Bytes>, min: Option<nat>) returns (r: Result<seq<WalEntry>>)
    ensures r == ReplayRest(crc, files, 0, min).Collected()
  {
    hide OpenSegment, ReadAll, NextEntry, Filter, Skipped;
    var out, i := [], 0;
    ghost var whole := ReplayRest(crc, files, 0, min);
    assert whole == whole.After([]) by {
      assert [] + whole.entries == whole.entries;
    }
    while i < |files|
      invariant 0 <= i <= |files|
      invariant whole == ReplayRest(crc, files, i, min).After(out)
    {
      if Skipped(files, i, min) {
        i := i + 1;
        continue;
      }
      var header :- OpenSegment(files[i]);
      var reader := new SegmentReader(crc, files[i]);
      var s := reader.Drain();
      if s.error.Some? {
        return Err(s.error.value);
      }
      var kept := KeepWanted(s.entries, min);
      AfterTwice(ReplayRest(crc, files, i + 1, min), out, kept);
      out, i := out + kept, i + 1;
    }
    assert out + [] == out;
    return Ok(out);
  }

  // --- The lazy reader ---

  /** `WalEntryIterator`: opens segments as it reaches them. */
  class WalEntryIterator {
    const crc: Bytes -> nat
    const files: seq<Bytes>
    const min: Option<nat>
    var segmentIndex: nat
    var position: Option<nat>
    var done: bool

    ghost predicate Valid()
      reads this
    {
      && segmentIndex <= |files|
      && (position.Some? ==> segmentIndex >= 1 && position.value <= |files[segmentIndex - 1]|)
    }

    ghost function Remaining(): Stream
      reads this
      requires Valid()
    {
      if done then Stream([], None)
      else if position.Some? then InSegment(crc, files, segmentIndex, position.value, min)
      else ReplayRest(crc, files, segmentIndex, min)
    }

    constructor (crc: Bytes -> nat, files: seq<Bytes>, min: Option<nat>)
      ensures Valid() && Remaining() == ReplayRest(crc, files, 0, min)
    {
      this.crc, this.files, this.min := crc, files, min;
      segmentIndex, position, done := 0, None, false;
    }

    /** Moves to the next segment that is not skipped. */
    method OpenNext() returns (r: Result<bool>)
      requires Valid() && position.None? && !done
      modifies `segmentIndex, `position
      ensures Valid() && segmentIndex >= old(segmentIndex)
      ensures r.Ok? ==> r.value == position.Some? && Remaining() == old(Remaining())
      ensures r.Ok? && r.value ==> segmentIndex > old(segmentIndex)
      ensures r.Ok? && !r.value ==> Remaining() == Stream([], None)
      ensures r.Err? ==> old(Remaining()) == Stream([], Some(r.error))
    {
      hide OpenSegment, InSegment, Filter, Skipped;
      ghost var whole := Remaining();
      while segmentIndex < |files|
        invariant Valid() && position.None? && segmentIndex >= old(segmentIndex)
        invariant ReplayRest(crc, files, segmentIndex, min) == whole
      {
        if Skipped(files, segmentIndex, min) {
          segmentIndex := segmentIndex + 1;
          continue;
        }
        var header := OpenSegment(files[segmentIndex]);
        if header.Err? {
          return Err(header.error);
        }
        position, segmentIndex := Some(HEADER_SIZE), segmentIndex + 1;
        return Ok(true);
      }
      return Ok(false);
    }

    ghost function Fuel(): (nat, nat)
      reads this
      requires Valid()
    {
      (|files| - segmentIndex, if position.Some? then |files[segmentIndex - 1]| - position.value + 1 else 0)
    }

    /** One `next_entry` on the open segment: an entry to deliver, an error, or neither. */
    method ReadOne() returns (r: Option<Result<WalEntry>>)
      requires Valid() && position.Some? && !done
      modifies `position, `done
      ensures Valid()
      ensures r.None? ==> !done && Remaining() == old(Remaining()) && Fuel().0 == old(Fuel().0) && Fuel().1 < old(Fuel().1)
      ensures r.Some? && r.value.Ok? ==> old(Remaining()) == Remaining().After([r.value.value])
      ensures r.Some? && r.value.Err? ==> done && old(Remaining()) == Stream([], Some(r.value.error))
    {
      hide OpenSegment, ReadAll, NextEntry, Filter, Skipped, ReplayRest, InSegment;
      var data, at := files[segmentIndex - 1], position.value;
      InSegmentStep(crc, files, segmentIndex, at, min);
      var next := NextEntry(crc, data, at);
      if next.Err? {
        done := true;
        return Some(Err(next.error));
      }
      if next.value.None? {
        position := None;
        return None;
      }
      var (e, after) := next.value.value;
      position := Some(after);
      if Wanted(e, min) {
        return Some(Ok(e));
      }
      assert Remaining().After([]) == Remaining() by {
        assert [] + Remaining().entries == Remaining().entries;
      }
      return None;
    }

    /** The next entry, or the error that ends the iteration, or the end. */
    method Next() returns (r: Option<Result<WalEntry>>)
      requires Valid()
      modifies `segmentIndex, `position, `done
      ensures Valid()
      ensures r.None? ==> old(Remaining()) == Stream([], None) && Remaining() == Stream([], None)
      ensures r.Some? && r.value.Ok? ==> old(Remaining()) == Remaining().After([r.value.value])
      ensures r.Some? && r.value.Err? ==> old(Remaining()) == Stream([], Some(r.value.error)) && Remaining() == Stream([], None)
    {
      if done {
        return None;
      }
      hide OpenSegment, ReadAll, NextEntry, Filter, Skipped, ReplayRest, InSegment;
      ghost var whole := Remaining();
      while true
        invariant Valid() && !done && Remaining() == whole
        decreases Fuel().0, Fuel().1
      {
        if position.None? {
          var header := OpenNext();
          if header.Err? {
            done := true;
            return Some(Err(header.error));
          }
          if !header.value {
            return None;
          }
        }
        r := ReadOne();
        if r.Some? {
          return;
        }
      }
    }
  }

  lemma InSegmentStep(crc: Bytes -> nat, files: seq<Bytes>, next: nat, pos: nat, min: Option<nat>)
    requires 1 <= next <= |files| && pos <= |files[next - 1]|
    ensures var step := NextEntry(crc, files[next - 1], pos);
            InSegment(crc, files, next, pos, min) ==
              if step.Err? then Stream([], Some(step.error))
              else if step.value.None? then ReplayRest(crc, files, next, min)
              else
                var (e, after) := step.value.value;
                InSegment(crc, files, next, after, min).After(if Wanted(e, min) then [e] else [])
  {
    hide NextEntry;
    var data := files[next - 1];
    var step := NextEntry(crc, data, pos);
    var rest := ReplayRest(crc, files, next, min);
    if step.Ok? && step.value.Some? {
      var (e, after) := step.value.value;
      var s := ReadAll(crc, data, after);
      FilterAppend([e], s.entries, min);
      assert Filter([e][1..], min) == [];
      AfterTwice(rest, if Wanted(e, min) then [e] else [], Filter(s.entries, min));
    } else {
      assert rest.After([]) == rest by {
        assert [] + rest.entries == rest.entries;
      }
    }
  }

  // --- Logs of known contents ---

  /** One segment: its number and header fields, its entries and a torn tail. */
  datatype Part = Part(number: nat, start: nat, createdAt: nat, es: seq<WalEntry>, torn: Bytes)

  function FileOf(crc: Bytes -> nat, p: Part): Bytes {
    EncodeHeader(Header(p.number, p.start, p.createdAt)) + EncodeAll(crc, p.es) + p.torn
  }

  ghost predicate PartOk(crc: Bytes -> nat, p: Part) {
    p.start < U64 && AllEncodable(p.es) && Torn(crc, p.torn)
  }

  ghost predicate Shape(crc: Bytes -> nat, files: seq<Bytes>, parts: seq<Part>) {
    && |files| == |parts|
    && forall i :: 0 <= i < |parts| ==> PartOk(crc, parts[i]) && files[i] == FileOf(crc, parts[i])
  }

  function All(parts: seq<Part>): seq<WalEntry> {
    if parts == [] then [] else parts[0].es + All(parts[1..])
  }

  lemma ReadsPart(crc: Bytes -> nat, p: Part)
    requires CrcFits(crc) && PartOk(crc, p)
    ensures var f := FileOf(crc, p);
            && |f| >= HEADER_SIZE && OpenSegment(f).Ok? && OpenSegment(f).value.start == p.start
            && ReadAll(crc, f, HEADER_SIZE) == Stream(p.es, None)
  {
    hide EncodeHeader, OpenSegment, ReadAll, EncodeAll;
    var h := Header(p.number, p.start, p.createdAt);
    OpensWithStart(h, EncodeAll(crc, p.es) + p.torn);
    assert FileOf(crc, p) == EncodeHeader(h) + (EncodeAll(crc, p.es) + p.torn);
    ReadsBack(crc, EncodeHeader(h), p.es, p.torn);
  }

  /** Every entry of a segment lies below the next segment's starting sequence. */
  ghost predicate StartsBound(parts: seq<Part>) {
    forall i :: 0 <= i < |parts| - 1 ==> EntriesBelow(parts[i].es, parts[i + 1].start)
  }

  ghost predicate EntriesBelow(es: seq<WalEntry>, bound: nat) {
    forall j :: 0 <= j < |es| ==> es[j].seqno < bound
  }

  lemma {:induction false} FilterNone(es: seq<WalEntry>, bound: nat, min: Option<nat>)
    requires EntriesBelow(es, bound) && min.Some? && bound <= min.value
    ensures Filter(es, min) == []
  {
    if es != [] {
      assert forall j :: 0 <= j < |es[1..]| ==> es[1..][j] == es[j + 1];
      FilterNone(es[1..], bound, min);
    }
  }

  /** From any segment on, replay delivers exactly the wanted entries of the remaining segments. */
  lemma {:induction false} ReplayRestIsFilter(crc: Bytes -> nat, files: seq<Bytes>, parts: seq<Part>, i: nat, min: Option<nat>)
    requires CrcFits(crc) && Shape(crc, files, parts) && i <= |parts|
    requires min.None? || StartsBound(parts)
    ensures ReplayRest(crc, files, i, min) == Stream(Filter(All(parts[i..]), min), None)
    decreases |parts| - i
  {
    hide FileOf, PartOk, OpenSegment, ReadAll;
    if i < |parts| {
      ReplayRestIsFilter(crc, files, parts, i + 1, min);
      assert parts[i..][1..] == parts[i + 1..];
      FilterAppend(parts[i].es, All(parts[i + 1..]), min);
      assert PartOk(crc, parts[i]);
      ReadsPart(crc, parts[i]);
      if Skipped(files, i, min) {
        assert PartOk(crc, parts[i + 1]);
        ReadsPart(crc, parts[i + 1]);
        FilterNone(parts[i].es, parts[i + 1].start, min);
      }
    }
  }

  lemma {:induction false} FilterAll(es: seq<WalEntry>)
    ensures Filter(es, None) == es
  {
    if es != [] {
      FilterAll(es[1..]);
      assert es == [es[0]] + es[1..];
    }
  }

  /** A full replay delivers every entry, in order, past every torn tail. */
  lemma ReplayAllDelivers(crc: Bytes -> nat, files: seq<Bytes>, parts: seq<Part>)
    requires CrcFits(crc) && Shape(crc, files, parts)
    ensures ReplayRest(crc, files, 0, None).Collected() == Ok(All(parts))
  {
    ReplayRestIsFilter(crc, files, parts, 0, None);
    assert parts[0..] == parts;
    FilterAll(All(parts));
  }

  /** A segment whose entries are followed by a damaged body and more. */
  function DamagedFile(crc: Bytes -> nat, h: Header, es: seq<WalEntry>, body: Bytes, stored: nat, rest: Bytes): Bytes {
    EncodeHeader(h) + EncodeAll(crc, es) + Frame(body, stored) + rest
  }

  lemma {:induction false} DamagedSegment(crc: Bytes -> nat, h: Header, es: seq<WalEntry>, body: Bytes, stored: nat, rest: Bytes)
    requires CrcFits(crc) && h.start < U64 && AllEncodable(es) && 0 < |body| < U32 && stored < U32 && stored != crc(body)
    requires |rest| >= 8 && !AllZero(rest)
    ensures var f := DamagedFile(crc, h, es, body, stored, rest);
            |f| >= HEADER_SIZE && OpenSegment(f).Ok? && ReadAll(crc, f, HEADER_SIZE) == Stream(es, Some(CrcMismatch))
  {
    hide EncodeHeader, OpenSegment, ReadAll, EncodeAll, Frame, AllZero;
    OpensWithStart(h, EncodeAll(crc, es) + Frame(body, stored) + rest);
    assert DamagedFile(crc, h, es, body, stored, rest) == EncodeHeader(h) + (EncodeAll(crc, es) + Frame(body, stored) + rest);
    DamageIsReported(crc, EncodeHeader(h), es, body, stored, rest);
  }

  /** A full replay of good segments, then one that is damaged in the middle, then anything: it delivers
      everything before the damage and ends with a checksum error, so that the replay as a whole fails. */
  lemma {:induction false} ReplayReportsDamage(crc: Bytes -> nat, files: seq<Bytes>, parts: seq<Part>, h: Header, es: seq<WalEntry>, body: Bytes, stored: nat, rest: Bytes, later: seq<Bytes>)
    requires CrcFits(crc) && Shape(crc, files, parts) && h.start < U64 && AllEncodable(es)
    requires 0 < |body| < U32 && stored < U32 && stored != crc(body) && |rest| >= 8 && !AllZero(rest)
    ensures var all := files + [DamagedFile(crc, h, es, body, stored, rest)] + later;
            && ReplayRest(crc, all, 0, None) == Stream(All(parts) + es, Some(CrcMismatch))
            && ReplayRest(crc, all, 0, None).Collected() == Err(CrcMismatch)
  {
    hide DamagedFile, Shape, ReplayRest;
    var bad := DamagedFile(crc, h, es, body, stored, rest);
    DamagedSegment(crc, h, es, body, stored, rest);
    assert files + [bad] + later == files + ([bad] + later);
    ReplayUpTo(crc, files, parts, 0, [bad] + later);
    assert parts[0..] == parts;
    ReplayStopsAt(crc, files + ([bad] + later), |files|, es);
  }

  /** Damage in the last segment fails every replay, from whatever sequence number: the last segment is
      never skipped. */
  lemma {:induction false} LastDamageFails(crc: Bytes -> nat, files: seq<Bytes>, parts: seq<Part>, bad: Bytes, es: seq<WalEntry>, i: nat, min: Option<nat>)
    requires CrcFits(crc) && Shape(crc, files, parts) && i <= |files|
    requires |bad| >= HEADER_SIZE && OpenSegment(bad).Ok? && ReadAll(crc, bad, HEADER_SIZE) == Stream(es, Some(CrcMismatch))
    ensures ReplayRest(crc, files + [bad], i, min).Collected() == Err(CrcMismatch)
    decreases |files| - i
  {
    hide FileOf, PartOk, OpenSegment, ReadAll, Filter;
    var all := files + [bad];
    if i == |files| {
      assert all[i] == bad;
    } else {
      LastDamageFails(crc, files, parts, bad, es, i + 1, min);
      assert PartOk(crc, parts[i]) && all[i] == files[i];
      ReadsPart(crc, parts[i]);
    }
  }

  lemma ReplayStopsAt(crc: Bytes -> nat, files: seq<Bytes>, i: nat, es: seq<WalEntry>)
    requires i < |files| && OpenSegment(files[i]).Ok? && ReadAll(crc, files[i], HEADER_SIZE) == Stream(es, Some(CrcMismatch))
    ensures ReplayRest(crc, files, i, None) == Stream(es, Some(CrcMismatch))
  {
    FilterAll(es);
  }

  lemma {:induction false} ReplayUpTo(crc: Bytes -> nat, files: seq<Bytes>, parts: seq<Part>, i: nat, later: seq<Bytes>)
    requires CrcFits(crc) && Shape(crc, files, parts) && i <= |parts|
    ensures ReplayRest(crc, files + later, i, None) == ReplayRest(crc, files + later, |files|, None).After(All(parts[i..]))
    decreases |parts| - i
  {
    hide FileOf, PartOk, OpenSegment, ReadAll;
    var end := ReplayRest(crc, files + later, |files|, None);
    if i == |parts| {
      assert parts[i..] == [] && [] + end.entries == end.entries;
    } else {
      ReplayUpTo(crc, files, parts, i + 1, later);
      assert parts[i..][1..] == parts[i + 1..];
      assert PartOk(crc, parts[i]) && (files + later)[i] == files[i];
      ReadsPart(crc, parts[i]);
      FilterAll(parts[i].es);
      assert parts[i].es + (All(parts[i + 1..]) + end.entries) == (parts[i].es + All(parts[i + 1..])) + end.entries;
    }
  }

  /** The lazy iterator, drained, delivers what the eager readers return. */
  method DrainIterator(crc: Bytes -> nat, files: seq<Bytes>, min: Option<nat>) returns (r: Result<seq<WalEntry>>)
    ensures r == ReplayRest(crc, files, 0, min).Collected()
  {
    hide ReplayRest, InSegment;
    var iter := new WalEntryIterator(crc, files, min);
    ghost var whole := ReplayRest(crc, files, 0, min);
    var out := [];
    assert whole == whole.After([]) by {
      assert [] + whole.entries == whole.entries;
    }
    while true
      invariant fresh(iter) && iter.Valid()
      invariant whole == iter.Remaining().After(out)
      decreases |iter.Remaining().entries|
    {
      ghost var before := iter.Remaining();
      var next := iter.Next();
      assert out + [] == out;
      if next.None? {
        return Ok(out);
      }
      if next.value.Err? {
        return Err(next.value.error);
      }
      AfterTwice(iter.Remaining(), out, [next.value.value]);
      out := out + [next.value.value];
    }
  }

  // --- When skipping is invisible ---

  lemma {:induction false} FilterFinds(es: seq<WalEntry>, j: nat, min: Option<nat>)
    requires j < |es| && Wanted(es[j], min)
    ensures Filter(es, min) != []
  {
    if j > 0 {
      assert es[1..][j - 1] == es[j];
      FilterFinds(es[1..], j - 1, min);
    }
  }

  lemma AllFrom(parts: seq<Part>, k: nat)
    requires k < |parts|
    ensures All(parts[k..]) == parts[k].es + All(parts[k + 1..])
  {
    assert parts[k..][1..] == parts[k + 1..];
  }

  /** Skipping a segment that holds a wanted entry makes the result too short. */
  lemma {:induction false} SkippingLoses(crc: Bytes -> nat, files: seq<Bytes>, parts: seq<Part>, k: nat, i: nat, min: Option<nat>)
    requires CrcFits(crc) && Shape(crc, files, parts) && k <= |parts|
    requires i < |parts| && Skipped(files, i, min) && Filter(parts[i].es, min) != []
    ensures |ReplayRest(crc, files, k, min).entries| + (if k <= i then 1 else 0) <= |Filter(All(parts[k..]), min)|
    ensures ReplayRest(crc, files, k, min).error.None?
    decreases |parts| - k
  {
    hide FileOf, PartOk, OpenSegment, ReadAll, Skipped, All, Filter;
    if k < |parts| {
      SkippingLoses(crc, files, parts, k + 1, i, min);
      AllFrom(parts, k);
      FilterAppend(parts[k].es, All(parts[k + 1..]), min);
      assert PartOk(crc, parts[k]);
      ReadsPart(crc, parts[k]);
    }
  }

  ghost predicate SkippingInvisible(crc: Bytes -> nat, files: seq<Bytes>, parts: seq<Part>) {
    forall m: nat :: ReplayRest(crc, files, 0, Some(m)).Collected() == Ok(Filter(All(parts), Some(m)))
  }

  lemma {:induction false} BoundStartsHide(crc: Bytes -> nat, files: seq<Bytes>, parts: seq<Part>)
    requires CrcFits(crc) && Shape(crc, files, parts) && StartsBound(parts)
    ensures SkippingInvisible(crc, files, parts)
  {
    hide Shape, ReplayRest, StartsBound, All, Filter;
    assert parts[0..] == parts;
    forall m: nat
      ensures ReplayRest(crc, files, 0, Some(m)).Collected() == Ok(Filter(All(parts), Some(m)))
    {
      ReplayRestIsFilter(crc, files, parts, 0, Some(m));
    }
  }

  lemma {:induction false} UnboundStartShows(crc: Bytes -> nat, files: seq<Bytes>, parts: seq<Part>, i: nat, j: nat)
    requires CrcFits(crc) && Shape(crc, files, parts)
    requires i + 1 < |parts| && j < |parts[i].es| && parts[i].es[j].seqno >= parts[i + 1].start
    ensures !SkippingInvisible(crc, files, parts)
  {
    hide FileOf, PartOk, OpenSegment, ReadAll, ReplayRest, All, Filter;
    assert parts[0..] == parts;
    var m := parts[i + 1].start;
    assert PartOk(crc, parts[i + 1]);
    ReadsPart(crc, parts[i + 1]);
    FilterFinds(parts[i].es, j, Some(m));
    SkippingLoses(crc, files, parts, 0, i, Some(m));
    assert ReplayRest(crc, files, 0, Some(m)).Collected() != Ok(Filter(All(parts), Some(m)));
  }

  /** Replay from a minimum sequence equals the filtered full replay, for every minimum, exactly
      when each header's starting sequence lies above every entry of the segment before it. */
  lemma {:induction false} SkippingInvisibleIff(crc: Bytes -> nat, files: seq<Bytes>, parts: seq<Part>)
    requires CrcFits(crc) && Shape(crc, files, parts)
    ensures SkippingInvisible(crc, files, parts) <==> StartsBound(parts)
  {
    hide Shape, SkippingInvisible;
    if StartsBound(parts) {
      BoundStartsHide(crc, files, parts);
    } else {
      var i :| 0 <= i < |parts| - 1 && !EntriesBelow(parts[i].es, parts[i + 1].start);
      var j :| 0 <= j < |parts[i].es| && parts[i].es[j].seqno >= parts[i + 1].start;
      UnboundStartShows(crc, files, parts, i, j);
    }
  }
}
