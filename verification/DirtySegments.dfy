/** Which memtable generations still pin which log segments (crates/flushdb-wal/src/dirty_tracker.rs). */
module DirtySegments {

  /** Per segment, the generations written into it and the highest sequence number of each. */
  type Dirty = map<nat, map<nat, nat>>

  function Generations(d: Dirty, segment: nat): map<nat, nat> {
    if segment in d then d[segment] else map[]
  }

  function Record(d: Dirty, segment: nat, generation: nat, seqno: nat): Dirty {
    var gens := Generations(d, segment);
    var prior := if generation in gens then gens[generation] else 0;
    d[segment := gens[generation := if seqno > prior then seqno else prior]]
  }

  predicate Clean(d: Dirty, segment: nat) {
    Generations(d, segment) == map[]
  }

  /** `mark_generation_flushed` forgets the generation everywhere ... */
  function Flushed(d: Dirty, generation: nat): Dirty {
    map segment | segment in d :: d[segment] - {generation}
  }

  /** ... and reports the segments it was the last to pin. */
  function NewlyClean(d: Dirty, generation: nat): set<nat> {
    set segment | segment in d && generation in d[segment] && d[segment] - {generation} == map[]
  }

  predicate Ascending(s: seq<nat>) {
    forall i, j :: 0 <= i < j < |s| ==> s[i] < s[j]
  }

  function InsertAscending(s: seq<nat>, x: nat): seq<nat> {
    if s == [] || x < s[0] then [x] + s else [s[0]] + InsertAscending(s[1..], x)
  }

  lemma {:induction false} InsertAscendingKeeps(s: seq<nat>, x: nat)
    requires Ascending(s) && x !in s
    ensures Ascending(InsertAscending(s, x))
    ensures forall y :: y in InsertAscending(s, x) <==> y == x || y in s
  {
    if s != [] && !(x < s[0]) {
      assert forall i :: 0 <= i < |s[1..]| ==> s[1..][i] == s[i + 1];
      InsertAscendingKeeps(s[1..], x);
      var r := InsertAscending(s[1..], x);
      assert s == [s[0]] + s[1..];
      forall i | 0 <= i < |r|
        ensures s[0] < r[i]
      {
        assert r[i] == x || r[i] in s[1..];
      }
    }
  }

  class DirtySegmentTracker {
    var dirty: Dirty

    constructor ()
      ensures dirty == map[]
    {
      dirty := map[];
    }

    method RecordWrite(segment: nat, generation: nat, seqno: nat)
      modifies this
      ensures dirty == Record(old(dirty), segment, generation, seqno)
    {
      var gens := if segment in dirty then dirty[segment] else map[];
      if generation !in gens {
        gens := gens[generation := 0];
      }
      if seqno > gens[generation] {
        gens := gens[generation := seqno];
      }
      assert gens == Record(dirty, segment, generation, seqno)[segment];
      dirty := dirty[segment := gens];
    }

    /** The loop over all segments; the report is in ascending order. */
    method MarkGenerationFlushed(generation: nat) returns (newlyClean: seq<nat>)
      modifies this
      ensures dirty == Flushed(old(dirty), generation)
      ensures Ascending(newlyClean)
      ensures forall segment :: segment in newlyClean <==> segment in NewlyClean(old(dirty), generation)
    {
      newlyClean := [];
      var before := dirty;
      var todo := dirty.Keys;
      while todo != {}
        invariant todo <= before.Keys == dirty.Keys
        invariant forall s :: s in before ==> dirty[s] == if s in todo then before[s] else before[s] - {generation}
        invariant Ascending(newlyClean)
        invariant forall s :: s in newlyClean <==> s in NewlyClean(before, generation) && s !in todo
        decreases |todo|
      {
        var segment :| segment in todo;
        var gens := dirty[segment];
        var left := gens - {generation};
        if generation in gens && left == map[] {
          InsertAscendingKeeps(newlyClean, segment);
          newlyClean := InsertAscending(newlyClean, segment);
        }
        dirty, todo := dirty[segment := left], todo - {segment};
      }
    }

    method IsSegmentClean(segment: nat) returns (clean: bool)
      ensures clean == Clean(dirty, segment)
    {
      clean := segment !in dirty || dirty[segment] == map[];
    }

    method RemoveSegment(segment: nat)
      modifies this
      ensures dirty == old(dirty) - {segment}
    {
      dirty := dirty - {segment};
    }
  }

  // --- What pinning guarantees ---

  /** A recorded generation pins its segment until it is flushed, whatever else happens. */
  lemma PinnedUntilFlushed(d: Dirty, segment: nat, generation: nat, other: nat)
    requires generation in Generations(d, segment) && other != generation
    ensures generation in Generations(Flushed(d, other), segment)
    ensures segment !in NewlyClean(d, other) && !Clean(Flushed(d, other), segment)
  {
    assert generation in d[segment] - {other};
  }

  /** Everything reported clean is clean, and was not before. */
  lemma ReportedIsClean(d: Dirty, generation: nat, segment: nat)
    ensures segment in NewlyClean(d, generation) <==> Clean(Flushed(d, generation), segment) && !Clean(d, segment)
  {
    if segment in d {
      var gens := d[segment];
      assert forall g :: g in gens && g != generation ==> g in gens - {generation};
      assert gens != map[] ==> exists g :: g in gens;
    }
  }

  /** Recording a run of writes of one generation into one segment. */
  function RecordAll(d: Dirty, segment: nat, generation: nat, seqnos: seq<nat>): Dirty {
    if seqnos == [] then d else Record(RecordAll(d, segment, generation, seqnos[..|seqnos| - 1]), segment, generation, seqnos[|seqnos| - 1])
  }

  /** What is kept is the highest of their sequence numbers, and other segments and generations are left
      alone. */
  lemma {:induction false} RecordsHighest(d: Dirty, segment: nat, generation: nat, seqnos: seq<nat>)
    requires seqnos != [] && generation !in Generations(d, segment)
    ensures var gens := Generations(RecordAll(d, segment, generation, seqnos), segment);
            && generation in gens && gens[generation] in seqnos && forall q :: q in seqnos ==> q <= gens[generation]
    ensures var after := RecordAll(d, segment, generation, seqnos);
            && (forall other :: other != segment ==> Generations(after, other) == Generations(d, other))
            && Generations(after, segment) - {generation} == Generations(d, segment)
    decreases |seqnos|
  {
    var n := |seqnos| - 1;
    assert seqnos == seqnos[..n] + [seqnos[n]];
    if n > 0 {
      RecordsHighest(d, segment, generation, seqnos[..n]);
    } else {
      assert seqnos[..n] == [] && RecordAll(d, segment, generation, []) == d;
    }
  }
}
