/** Batched block reads through the block cache (crates/flushdb-engine/src/cache/coalescing.rs and
    caching_fetcher.rs). */
module CoalescedFetches {
  import opened Wrappers
  import opened ByteStrings
  import opened Entries
  import opened BlockCodec
  import opened SstFormats
  import opened SstFiles

  datatype Request = Request(index: nat, offset: nat, size: nat)

  type Cache = map<nat, seq<Entry>>

  type Found = (nat, seq<Entry>)

  /** A block read on its own. */
  function Block(c: Codec, file: Bytes, r: Request): Result<seq<Entry>> {
    var raw :- GetRange(file, r.offset, r.size);
    DecodeBlock(c, raw)
  }

  /** The requests stand for entries of one index, where an offset has one size. */
  ghost predicate Derived(index: seq<IndexEntry>, r: Request) {
    r.index < |index| && r.offset == index[r.index].offset && r.size == index[r.index].size
  }

  ghost predicate AllDerived(index: seq<IndexEntry>, rs: seq<Request>) {
    forall i :: 0 <= i < |rs| ==> Derived(index, rs[i])
  }

  ghost predicate OneSize(index: seq<IndexEntry>) {
    forall i, j :: 0 <= i < |index| && 0 <= j < |index| && index[i].offset == index[j].offset ==> index[i].size == index[j].size
  }

  /** Whatever the cache holds for a block of the file is that block. */
  ghost predicate Agrees(c: Codec, file: Bytes, index: seq<IndexEntry>, cache: Cache) {
    forall r :: Derived(index, r) && r.offset in cache ==> Block(c, file, r) == Ok(cache[r.offset])
  }

  // --- Sorting ---

  function InsertByOffset(rs: seq<Request>, r: Request): seq<Request> {
    if rs == [] || rs[|rs| - 1].offset <= r.offset then rs + [r]
    else InsertByOffset(rs[..|rs| - 1], r) + [rs[|rs| - 1]]
  }

  function SortByOffset(rs: seq<Request>): seq<Request> {
    if rs == [] then [] else InsertByOffset(SortByOffset(rs[..|rs| - 1]), rs[|rs| - 1])
  }

  lemma {:induction false} InsertByOffsetKeeps(rs: seq<Request>, r: Request)
    ensures multiset(InsertByOffset(rs, r)) == multiset(rs) + multiset{r}
  {
    if rs != [] {
      var n := |rs| - 1;
      assert rs == rs[..n] + [rs[n]];
      InsertByOffsetKeeps(rs[..n], r);
    }
  }

  lemma {:induction false} SortByOffsetKeeps(rs: seq<Request>)
    ensures multiset(SortByOffset(rs)) == multiset(rs)
  {
    if rs != [] {
      var n := |rs| - 1;
      assert rs == rs[..n] + [rs[n]];
      SortByOffsetKeeps(rs[..n]);
      InsertByOffsetKeeps(SortByOffset(rs[..n]), rs[n]);
    }
  }

  function InsertByIndex(fs: seq<Found>, x: Found): seq<Found> {
    if fs == [] || fs[|fs| - 1].0 <= x.0 then fs + [x]
    else InsertByIndex(fs[..|fs| - 1], x) + [fs[|fs| - 1]]
  }

  function SortByIndex(fs: seq<Found>): seq<Found> {
    if fs == [] then [] else InsertByIndex(SortByIndex(fs[..|fs| - 1]), fs[|fs| - 1])
  }

  ghost predicate InIndexOrder(fs: seq<Found>) {
    forall i, j :: 0 <= i < j < |fs| ==> fs[i].0 <= fs[j].0
  }

  lemma {:induction false} InsertByIndexKeeps(fs: seq<Found>, x: Found)
    requires InIndexOrder(fs)
    ensures multiset(InsertByIndex(fs, x)) == multiset(fs) + multiset{x} && InIndexOrder(InsertByIndex(fs, x))
  {
    if fs != [] {
      var n := |fs| - 1;
      assert fs == fs[..n] + [fs[n]];
      if fs[n].0 > x.0 {
        InsertByIndexKeeps(fs[..n], x);
        var init := InsertByIndex(fs[..n], x);
        hide InsertByIndex;
        forall i | 0 <= i < |init|
          ensures init[i].0 <= fs[n].0
        {
          InsertedMember(fs[..n], x, init, i);
        }
      }
    }
  }

  lemma InsertedMember(fs: seq<Found>, x: Found, out: seq<Found>, i: nat)
    requires multiset(out) == multiset(fs) + multiset{x} && i < |out|
    ensures out[i] in fs || out[i] == x
  {
    assert out[i] in multiset(out);
  }

  lemma {:induction false} SortByIndexKeeps(fs: seq<Found>)
    ensures multiset(SortByIndex(fs)) == multiset(fs) && InIndexOrder(SortByIndex(fs))
  {
    if fs != [] {
      var n := |fs| - 1;
      assert fs == fs[..n] + [fs[n]];
      SortByIndexKeeps(fs[..n]);
      InsertByIndexKeeps(SortByIndex(fs[..n]), fs[n]);
    }
  }

  // --- What the requests stand for ---

  /** The results are those of the requests, read one by one. */
  ghost predicate Answers(c: Codec, file: Bytes, rs: seq<Request>, fs: seq<Found>) {
    && |fs| == |rs|
    && forall i :: 0 <= i < |rs| ==> fs[i].0 == rs[i].index && Block(c, file, rs[i]) == Ok(fs[i].1)
  }

  lemma NoAnswers(c: Codec, file: Bytes)
    ensures Answers(c, file, [], [])
  {
  }

  lemma AnswersAppend(c: Codec, file: Bytes, a: seq<Request>, fa: seq<Found>, b: seq<Request>, fb: seq<Found>)
    requires Answers(c, file, a, fa) && Answers(c, file, b, fb)
    ensures Answers(c, file, a + b, fa + fb)
  {
    hide Block;
  }

  // --- Contiguous groups ---

  predicate Adjacent(a: Request, b: Request) {
    a.offset + a.size == b.offset
  }

  ghost predicate Contiguous(g: seq<Request>) {
    g != [] && forall i :: 0 <= i < |g| - 1 ==> Adjacent(g[i], g[i + 1])
  }

  lemma {:induction false} WithinGroup(g: seq<Request>, i: nat)
    requires Contiguous(g) && i < |g|
    ensures g[0].offset <= g[i].offset
    ensures g[i].offset + g[i].size <= g[|g| - 1].offset + g[|g| - 1].size
  {
    if |g| > 1 {
      var n := |g| - 1;
      assert Contiguous(g[..n]);
      assert Adjacent(g[n - 1], g[n]);
      if i < n {
        WithinGroup(g[..n], i);
      } else {
        WithinGroup(g[..n], n - 1);
      }
    }
  }

  /** The second run does not begin where the first one ends. */
  predicate Apart(a: seq<Request>, b: seq<Request>) {
    a != [] && b != [] && !Adjacent(a[|a| - 1], b[0])
  }

  /** The grouping loop: runs of adjacent misses, as long as they can be. */
  method Group(uncached: seq<Request>) returns (groups: seq<seq<Request>>)
    requires uncached != []
    ensures Flatten(groups) == uncached
    ensures forall i :: 0 <= i < |groups| ==> Contiguous(groups[i])
    ensures forall i :: 0 < i < |groups| ==> Apart(groups[i - 1], groups[i])
  {
    groups := [];
    var current := [uncached[0]];
    var i := 1;
    assert uncached[..1] == [uncached[0]];
    while i < |uncached|
      invariant 1 <= i <= |uncached|
      invariant Flatten(groups) + current == uncached[..i]
      invariant Contiguous(current) && current[|current| - 1] == uncached[i - 1]
      invariant forall j :: 0 <= j < |groups| ==> Contiguous(groups[j])
      invariant forall j :: 0 < j < |groups| ==> Apart(groups[j - 1], groups[j])
      invariant groups != [] ==> Apart(groups[|groups| - 1], current)
    {
      assert uncached[..i + 1] == uncached[..i] + [uncached[i]];
      if Adjacent(uncached[i - 1], uncached[i]) {
        assert Flatten(groups) + (current + [uncached[i]]) == Flatten(groups) + current + [uncached[i]];
        current := current + [uncached[i]];
      } else {
        FlattenOneMore(groups, current);
        groups := groups + [current];
        current := [uncached[i]];
      }
      i := i + 1;
    }
    FlattenOneMore(groups, current);
    groups := groups + [current];
    assert uncached[..|uncached|] == uncached;
  }

  lemma SubSlice(s: Bytes, a: nat, n: nat, x: nat, y: nat)
    requires a + n <= |s| && x <= y <= n
    ensures s[a..a + n][x..y] == s[a + x..a + y]
  {
    var part := s[a..a + n];
    assert forall k :: 0 <= k < n ==> part[k] == s[a + k];
  }

  function RunLength(g: seq<Request>): nat
    requires g != [] && g[0].offset <= g[|g| - 1].offset + g[|g| - 1].size
  {
    g[|g| - 1].offset + g[|g| - 1].size - g[0].offset
  }

  lemma RunOrdered(g: seq<Request>)
    requires Contiguous(g)
    ensures g[0].offset <= g[|g| - 1].offset + g[|g| - 1].size
  {
    WithinGroup(g, 0);
  }

  /** Reading a run in one piece and slicing it gives each block as it lies in the file. */
  lemma SliceOfRun(c: Codec, file: Bytes, g: seq<Request>, i: nat, raw: Bytes)
    requires Contiguous(g) && i < |g| && g[0].offset <= g[|g| - 1].offset + g[|g| - 1].size
    requires GetRange(file, g[0].offset, RunLength(g)) == Ok(raw)
    ensures g[0].offset <= g[i].offset && g[i].offset - g[0].offset + g[i].size <= |raw|
    ensures var from := g[i].offset - g[0].offset;
            Block(c, file, g[i]) == DecodeBlock(c, raw[from..from + g[i].size])
  {
    hide DecodeBlock;
    WithinGroup(g, i);
    var from := g[i].offset - g[0].offset;
    SubSlice(file, g[0].offset, RunLength(g), from, from + g[i].size);
  }

  /** A run whose last block can be read can be read whole. */
  lemma RunReadable(c: Codec, file: Bytes, g: seq<Request>)
    requires Contiguous(g) && g[0].offset <= g[|g| - 1].offset + g[|g| - 1].size
    ensures Block(c, file, g[|g| - 1]).Ok? ==> RunLength(g) <= |file| && GetRange(file, g[0].offset, RunLength(g)).Ok?
  {
  }

  // --- The fetcher ---

  /** One file's view of the shared cache; `evict` is whatever the cache drops after an insertion. */
  class CoalescingFetcher {
    const c: Codec
    const file: Bytes
    const evict: Cache -> set<nat>
    var cache: Cache

    constructor (c: Codec, file: Bytes, evict: Cache -> set<nat>)
      ensures this.c == c && this.file == file && this.evict == evict && cache == map[]
    {
      this.c, this.file, this.evict, cache := c, file, evict, map[];
    }

    method Remember(r: Request, entries: seq<Entry>, ghost index: seq<IndexEntry>)
      requires OneSize(index) && Derived(index, r) && Agrees(c, file, index, cache) && Block(c, file, r) == Ok(entries)
      modifies this
      ensures Agrees(c, file, index, cache)
    {
      hide Block;
      var grown := cache[r.offset := entries];
      assert Agrees(c, file, index, grown) by {
        InsertAgrees(c, file, index, cache, r, entries);
      }
      cache := grown - evict(grown);
    }

    /** `CachingBlockFetcher::fetch_block` */
    method FetchBlock(r: Request, ghost index: seq<IndexEntry>) returns (res: Result<seq<Entry>>)
      requires OneSize(index) && Derived(index, r) && Agrees(c, file, index, cache)
      modifies this
      ensures Agrees(c, file, index, cache) && res == Block(c, file, r)
    {
      if r.offset in cache {
        return Ok(cache[r.offset]);
      }
      var raw :- GetRange(file, r.offset, r.size);
      var entries :- DecodeBlock(c, raw);
      Remember(r, entries, index);
      return Ok(entries);
    }

    /** A run of misses, read in one piece. */
    method FetchRun(g: seq<Request>, ghost index: seq<IndexEntry>) returns (res: Result<seq<Found>>)
      requires OneSize(index) && AllDerived(index, g) && Contiguous(g) && Agrees(c, file, index, cache)
      modifies this
      ensures Agrees(c, file, index, cache)
      ensures res.Ok? ==> Answers(c, file, g, res.value)
      ensures (forall i :: 0 <= i < |g| ==> Block(c, file, g[i]).Ok?) && |file| < U32 ==> res.Ok?
    {
      hide Block, GetRange, Agrees, OneSize, Derived, Answers;
      RunOrdered(g);
      RunReadable(c, file, g);
      var from, total := g[0].offset, RunLength(g);
      if total >= U32 {
        return Err(CorruptedData);
      }
      var raw := GetRange(file, from, total);
      if raw.Err? {
        return Err(raw.error);
      }
      res := DecodeRun(g, raw.value, index);
    }

    /** One block of the run, sliced, decoded and cached. */
    method DecodeOne(g: seq<Request>, i: nat, raw: Bytes, ghost index: seq<IndexEntry>) returns (res: Result<seq<Entry>>)
      requires OneSize(index) && i < |g| && Derived(index, g[i]) && Contiguous(g) && Agrees(c, file, index, cache)
      requires g[0].offset <= g[|g| - 1].offset + g[|g| - 1].size && GetRange(file, g[0].offset, RunLength(g)) == Ok(raw)
      modifies this
      ensures Agrees(c, file, index, cache) && res == Block(c, file, g[i])
    {
      hide Block, DecodeBlock, GetRange, RunLength, Contiguous, Agrees, OneSize, Derived;
      SliceOfRun(c, file, g, i, raw);
      var at := g[i].offset - g[0].offset;
      if at + g[i].size > |raw| {
        return Err(CorruptedData);
      }
      res := DecodeBlock(c, raw[at..at + g[i].size]);
      if res.Ok? {
        Remember(g[i], res.value, index);
      }
    }

    /** The inner loop over the blocks of a run. */
    method DecodeRun(g: seq<Request>, raw: Bytes, ghost index: seq<IndexEntry>) returns (res: Result<seq<Found>>)
      requires OneSize(index) && AllDerived(index, g) && Contiguous(g) && Agrees(c, file, index, cache)
      requires g[0].offset <= g[|g| - 1].offset + g[|g| - 1].size && GetRange(file, g[0].offset, RunLength(g)) == Ok(raw)
      modifies this
      ensures Agrees(c, file, index, cache)
      ensures res.Ok? ==> Answers(c, file, g, res.value)
      ensures (forall i :: 0 <= i < |g| ==> Block(c, file, g[i]).Ok?) ==> res.Ok?
    {
      hide Block, GetRange, RunLength, Contiguous, Agrees, Answers, OneSize, Derived;
      var found := [];
      NoAnswers(c, file);
      assert g[..0] == [];
      for i := 0 to |g|
        invariant Agrees(c, file, index, cache)
        invariant Answers(c, file, g[..i], found)
      {
        var entries := DecodeOne(g, i, raw, index);
        if entries.Err? {
          return Err(entries.error);
        }
        AnswersOne(c, file, g, i, found, entries.value);
        found := found + [(g[i].index, entries.value)];
      }
      assert g[..|g|] == g;
      return Ok(found);
    }

    /** The loop over the groups. */
    method FetchGroups(groups: seq<seq<Request>>, ghost index: seq<IndexEntry>) returns (res: Result<seq<Found>>)
      requires OneSize(index) && Agrees(c, file, index, cache)
      requires forall i :: 0 <= i < |groups| ==> Contiguous(groups[i]) && AllDerived(index, groups[i])
      modifies this
      ensures Agrees(c, file, index, cache)
      ensures res.Ok? ==> Answers(c, file, Flatten(groups), res.value)
      ensures AllReadable(c, file, Flatten(groups)) && |file| < U32 ==> res.Ok?
    {
      hide Block;
      var found := [];
      for i := 0 to |groups|
        invariant Agrees(c, file, index, cache)
        invariant Answers(c, file, Flatten(groups[..i]), found)
      {
        var g := groups[i];
        assert groups[..i + 1] == groups[..i] + [g];
        FlattenOneMore(groups[..i], g);
        GroupReadable(c, file, groups, i);
        if |g| == 1 {
          var entries := FetchBlock(g[0], index);
          if entries.Err? {
            return Err(entries.error);
          }
          AnswersAppend(c, file, Flatten(groups[..i]), found, g, [(g[0].index, entries.value)]);
          found := found + [(g[0].index, entries.value)];
        } else {
          var run := FetchRun(g, index);
          if run.Err? {
            return Err(run.error);
          }
          AnswersAppend(c, file, Flatten(groups[..i]), found, g, run.value);
          found := found + run.value;
        }
      }
      assert groups[..|groups|] == groups;
      return Ok(found);
    }

    /** `fetch_blocks`: an answer holds, for every request in any order, the block read on its own,
        in order of block index; the cache still agrees with the file; and readable blocks of a file
        below 4 GiB are always answered. */
    method FetchBlocks(requests: seq<Request>, ghost index: seq<IndexEntry>) returns (res: Result<seq<Found>>)
      requires OneSize(index) && AllDerived(index, requests) && Agrees(c, file, index, cache)
      modifies this
      ensures Agrees(c, file, index, cache)
      ensures res.Ok? ==> InIndexOrder(res.value) && OneByOne(c, file, requests, res.value)
      ensures AllReadable(c, file, requests) && |file| < U32 ==> res.Ok?
    {
      if requests == [] {
        return Ok([]);
      }
      var sorted := SortByOffset(requests);
      SortByOffsetKeeps(requests);
      Permuted(c, file, index, requests, sorted);
      var cached, uncached := Split(sorted, index);
      SplitReadable(c, file, index, sorted, cached.0, uncached);
      var found := cached.1;
      if uncached != [] {
        var groups := Group(uncached);
        GroupsDerived(index, groups);
        var fetched := FetchGroups(groups, index);
        if fetched.Err? {
          return Err(fetched.error);
        }
        AnswersAppend(c, file, cached.0, found, uncached, fetched.value);
        found := found + fetched.value;
      } else {
        assert cached.0 + uncached == cached.0;
      }
      SortByIndexKeeps(found);
      SortedAnswers(c, file, requests, cached.0 + uncached, found);
      return Ok(SortByIndex(found));
    }

    /** The cache pass: hits answered at once, misses kept in order. */
    method Split(sorted: seq<Request>, ghost index: seq<IndexEntry>) returns (hits: (seq<Request>, seq<Found>), misses: seq<Request>)
      requires AllDerived(index, sorted) && Agrees(c, file, index, cache)
      ensures Answers(c, file, hits.0, hits.1)
      ensures multiset(hits.0) + multiset(misses) == multiset(sorted)
    {
      hide Block;
      hits, misses := ([], []), [];
      for i := 0 to |sorted|
        invariant Answers(c, file, hits.0, hits.1)
        invariant multiset(hits.0) + multiset(misses) == multiset(sorted[..i])
      {
        var r := sorted[i];
        assert sorted[..i + 1] == sorted[..i] + [r];
        assert Derived(index, r);
        if r.offset in cache {
          hits := (hits.0 + [r], hits.1 + [(r.index, cache[r.offset])]);
        } else {
          misses := misses + [r];
        }
      }
      assert sorted[..|sorted|] == sorted;
    }
  }

  // --- Facts the fetcher uses ---

  lemma InsertAgrees(c: Codec, file: Bytes, index: seq<IndexEntry>, cache: Cache, r: Request, entries: seq<Entry>)
    requires OneSize(index) && Derived(index, r) && Agrees(c, file, index, cache) && Block(c, file, r) == Ok(entries)
    ensures Agrees(c, file, index, cache[r.offset := entries])
  {
    forall q | Derived(index, q) && q.offset == r.offset
      ensures Block(c, file, q) == Ok(entries)
    {
      assert q.size == r.size;
    }
    hide Block;
  }

  ghost predicate AllReadable(c: Codec, file: Bytes, rs: seq<Request>) {
    forall i :: 0 <= i < |rs| ==> Block(c, file, rs[i]).Ok?
  }

  /** Every request read on its own. */
  ghost function ReadEach(c: Codec, file: Bytes, rs: seq<Request>): (fs: seq<Found>)
    requires AllReadable(c, file, rs)
    ensures |fs| == |rs|
  {
    seq(|rs|, i requires 0 <= i < |rs| => (rs[i].index, Block(c, file, rs[i]).value))
  }

  /** The results are those of the requests, read one by one. */
  ghost predicate OneByOne(c: Codec, file: Bytes, requests: seq<Request>, fs: seq<Found>) {
    AllReadable(c, file, requests) && multiset(fs) == multiset(ReadEach(c, file, requests))
  }

  lemma {:induction false} ReadingIgnoresOrder(c: Codec, file: Bytes, a: seq<Request>, b: seq<Request>)
    requires multiset(a) == multiset(b) && AllReadable(c, file, a) && AllReadable(c, file, b)
    ensures multiset(ReadEach(c, file, a)) == multiset(ReadEach(c, file, b))
    decreases |a|
  {
    hide Block;
    if a == [] {
      assert multiset(b) == multiset{};
      assert b == [];
    } else {
      var n := |a| - 1;
      assert a == a[..n] + [a[n]];
      assert a[n] in multiset(b);
      var p :| 0 <= p < |b| && b[p] == a[n];
      var rest := b[..p] + b[p + 1..];
      WithoutOne(b, p);
      assert multiset(a) == multiset(a[..n]) + multiset{a[n]};
      assert multiset(rest) == multiset(b) - multiset{b[p]} == multiset(a[..n]);
      ReadingIgnoresOrder(c, file, a[..n], rest);
      ReadWithoutOne(c, file, a, n);
      ReadWithoutOne(c, file, b, p);
      assert a[..n] + a[n + 1..] == a[..n];
    }
  }

  lemma WithoutOne<X>(b: seq<X>, p: nat)
    requires p < |b|
    ensures multiset(b) == multiset(b[..p] + b[p + 1..]) + multiset{b[p]}
  {
    assert b == b[..p] + [b[p]] + b[p + 1..];
  }

  lemma ReadWithoutOne(c: Codec, file: Bytes, b: seq<Request>, p: nat)
    requires p < |b| && AllReadable(c, file, b)
    ensures var rest := b[..p] + b[p + 1..];
            && AllReadable(c, file, rest)
            && multiset(ReadEach(c, file, b)) == multiset(ReadEach(c, file, rest)) + multiset{(b[p].index, Block(c, file, b[p]).value)}
  {
    hide Block;
    var rest, all := b[..p] + b[p + 1..], ReadEach(c, file, b);
    WithoutOne(all, p);
    assert ReadEach(c, file, rest) == all[..p] + all[p + 1..];
  }

  lemma AnswersOne(c: Codec, file: Bytes, g: seq<Request>, i: nat, found: seq<Found>, entries: seq<Entry>)
    requires i < |g| && Answers(c, file, g[..i], found) && Block(c, file, g[i]) == Ok(entries)
    ensures Answers(c, file, g[..i + 1], found + [(g[i].index, entries)])
  {
    hide Block;
    assert g[..i + 1] == g[..i] + [g[i]];
  }

  lemma Permuted(c: Codec, file: Bytes, index: seq<IndexEntry>, a: seq<Request>, b: seq<Request>)
    requires multiset(a) == multiset(b)
    ensures AllDerived(index, a) ==> AllDerived(index, b)
    ensures AllReadable(c, file, a) ==> AllReadable(c, file, b)
  {
    hide Block, Derived;
    forall i | 0 <= i < |b|
      ensures b[i] in a
    {
      assert b[i] in multiset(b);
    }
  }

  lemma SplitReadable(c: Codec, file: Bytes, index: seq<IndexEntry>, all: seq<Request>, a: seq<Request>, b: seq<Request>)
    requires multiset(a) + multiset(b) == multiset(all)
    ensures AllDerived(index, all) ==> AllDerived(index, b)
    ensures AllReadable(c, file, all) ==> AllReadable(c, file, b)
  {
    hide Block, Derived;
    forall i | 0 <= i < |b|
      ensures b[i] in all
    {
      assert b[i] in multiset(b);
      assert b[i] in multiset(all);
    }
  }

  lemma GroupsDerived(index: seq<IndexEntry>, groups: seq<seq<Request>>)
    requires AllDerived(index, Flatten(groups))
    ensures forall i :: 0 <= i < |groups| ==> AllDerived(index, groups[i])
  {
    hide Derived;
    forall i, j | 0 <= i < |groups| && 0 <= j < |groups[i]|
      ensures Derived(index, groups[i][j])
    {
      FlattenMember(groups, groups[i][j]);
      assert groups[i][j] in Flatten(groups);
    }
  }

  lemma GroupReadable(c: Codec, file: Bytes, groups: seq<seq<Request>>, i: nat)
    requires i < |groups|
    ensures AllReadable(c, file, Flatten(groups)) ==> forall j :: 0 <= j < |groups[i]| ==> Block(c, file, groups[i][j]).Ok?
  {
    hide Block;
    forall j | 0 <= j < |groups[i]|
      ensures groups[i][j] in Flatten(groups)
    {
      FlattenMember(groups, groups[i][j]);
    }
  }

  lemma SortedAnswers(c: Codec, file: Bytes, requests: seq<Request>, rs: seq<Request>, found: seq<Found>)
    requires multiset(rs) == multiset(requests) && Answers(c, file, rs, found) && multiset(SortByIndex(found)) == multiset(found)
    ensures OneByOne(c, file, requests, SortByIndex(found))
  {
    hide Block, SortByIndex;
    Permuted(c, file, [], rs, requests);
    assert AllReadable(c, file, rs);
    ReadingIgnoresOrder(c, file, rs, requests);
    assert found == ReadEach(c, file, rs);
  }
}
