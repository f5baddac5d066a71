/** Lists strictly sorted by (key ascending, sequence descending): what a skip list stands for. */
module SortedRuns {
  import opened Wrappers
  import opened ByteStrings
  import opened Entries

  predicate SameSlot(a: Entry, b: Entry) {
    a.key == b.key && a.seqno == b.seqno
  }

  /** Insertion in order; an entry with the same key and sequence number is replaced. */
  function Insert(s: seq<Entry>, e: Entry): seq<Entry> {
    if s == [] then [e]
    else if Before(s[0], e) then [s[0]] + Insert(s[1..], e)
    else if SameSlot(s[0], e) then [e] + s[1..]
    else [e] + s
  }

  /** The first entry with the key. */
  function Lookup(s: seq<Entry>, k: Bytes): Option<Entry> {
    if s == [] then None
    else if s[0].key == k then Some(s[0])
    else Lookup(s[1..], k)
  }

  /** The entries in the half-open key range. */
  function InRange(s: seq<Entry>, start: Bytes, end: Bytes): seq<Entry> {
    if s == [] then []
    else if Le(start, s[0].key) && Lt(s[0].key, end) then [s[0]] + InRange(s[1..], start, end)
    else InRange(s[1..], start, end)
  }

  lemma {:induction false} InsertMembers(s: seq<Entry>, e: Entry)
    requires StrictlySorted(s)
    ensures forall x :: x in Insert(s, e) <==> x == e || (x in s && !SameSlot(x, e))
  {
    if s != [] {
      TailSorted(s);
      HeadFirst(s, e);
      assert forall x :: x in s <==> x == s[0] || x in s[1..];
      hide Before, StrictlySorted;
      if Before(s[0], e) {
        InsertMembers(s[1..], e);
      }
    }
  }

  lemma TailSorted(s: seq<Entry>)
    requires StrictlySorted(s) && s != []
    ensures StrictlySorted(s[1..])
    ensures forall x :: x in s[1..] ==> Before(s[0], x)
  {
    assert forall i :: 0 < i < |s| ==> s[i] == s[1..][i - 1];
    forall x | x in s[1..]
      ensures Before(s[0], x)
    {
      var i :| 0 <= i < |s[1..]| && s[1..][i] == x;
    }
  }

  /** Where a new entry goes at the head, no later entry shares its slot. */
  lemma HeadFirst(s: seq<Entry>, e: Entry)
    requires StrictlySorted(s) && s != []
    ensures Before(s[0], e) ==> !SameSlot(s[0], e)
    ensures !Before(s[0], e) ==> forall x :: x in s[1..] ==> !SameSlot(x, e) && Before(e, x)
    ensures !Before(s[0], e) && !SameSlot(s[0], e) ==> Before(e, s[0])
  {
    LtIsStrictTotalOrder();
    TailSorted(s);
    hide Lt;
  }

  /** Insertion keeps the order. */
  lemma {:induction false} InsertSorted(s: seq<Entry>, e: Entry)
    requires StrictlySorted(s)
    ensures StrictlySorted(Insert(s, e))
  {
    if s != [] {
      TailSorted(s);
      HeadFirst(s, e);
      if Before(s[0], e) {
        InsertSorted(s[1..], e);
        InsertMembers(s[1..], e);
        ConsSorted(s[0], Insert(s[1..], e));
      } else {
        ConsSorted(e, s[1..]);
        if !SameSlot(s[0], e) {
          assert s == [s[0]] + s[1..];
          ConsSorted(e, s);
        }
      }
    }
  }

  lemma ConsSorted(x: Entry, r: seq<Entry>)
    requires StrictlySorted(r) && forall y :: y in r ==> Before(x, y)
    ensures StrictlySorted([x] + r)
  {
    hide Before;
    assert forall i :: 0 < i < |[x] + r| ==> ([x] + r)[i] == r[i - 1] && r[i - 1] in r;
  }

  /** On a sorted list the first entry with the key is its newest version. */
  lemma {:induction false} LookupIsNewest(s: seq<Entry>, k: Bytes)
    requires StrictlySorted(s)
    ensures Lookup(s, k) == Newest(s, k)
  {
    var l := LookupFirst(s, k);
    if l.Some? {
      LtIsStrictTotalOrder();
      var n := Newest(s, k).value;
      var i :| 0 <= i < |s| && s[i] == l.value && forall j :: 0 <= j < i ==> s[j].key != k;
      var j :| 0 <= j < |s| && s[j] == n;
      assert i < j ==> Before(s[i], s[j]);
    }
  }

  lemma {:induction false} LookupFirst(s: seq<Entry>, k: Bytes) returns (r: Option<Entry>)
    ensures r == Lookup(s, k)
    ensures r.None? ==> forall e :: e in s ==> e.key != k
    ensures r.Some? ==> r.value.key == k && exists i :: 0 <= i < |s| && s[i] == r.value && forall j :: 0 <= j < i ==> s[j].key != k
  {
    r := None;
    if s != [] {
      if s[0].key == k {
        r := Some(s[0]);
      } else {
        r := LookupFirst(s[1..], k);
        assert forall i :: 0 < i < |s| ==> s[i] == s[1..][i - 1];
        if r.Some? {
          var i :| 0 <= i < |s[1..]| && s[1..][i] == r.value && forall j :: 0 <= j < i ==> s[1..][j].key != k;
          assert s[i + 1] == r.value;
          assert forall j :: 0 <= j < i + 1 ==> s[j].key != k;
        }
      }
    }
  }

  lemma {:induction false} InRangeMembers(s: seq<Entry>, start: Bytes, end: Bytes)
    ensures forall e :: e in InRange(s, start, end) <==> e in s && Le(start, e.key) && Lt(e.key, end)
    ensures StrictlySorted(s) ==> StrictlySorted(InRange(s, start, end))
  {
    if s != [] {
      InRangeMembers(s[1..], start, end);
      assert forall x :: x in s <==> x == s[0] || x in s[1..];
      if StrictlySorted(s) {
        TailSorted(s);
        hide Before, Lt;
        if Le(start, s[0].key) && Lt(s[0].key, end) {
          ConsSorted(s[0], InRange(s[1..], start, end));
        }
      }
    }
  }
}
