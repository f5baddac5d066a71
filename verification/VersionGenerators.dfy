/** The lock-free version generator (crates/flushdb-server/src/version_generator.rs) and the
    versions it hands out (crates/flushdb-types/src/ordered_key.rs). Each step is one clock read, one
    atomic load or one compare-exchange of one thread, so a run is any interleaving. */
module VersionGenerators {
  import opened Wrappers
  import opened ByteStrings

  const U16: nat := 0x1_0000
  const U48: nat := 0x1_0000_0000_0000
  const U64: nat := 0x1_0000_0000_0000_0000
  const LAST_SEQUENCE: nat := 0xFFFF

  // --- Versions ---

  datatype OrderedKey = OrderedKey(timestamp: nat, node: nat, sequence: nat)

  /** The derived order: timestamp, then node, then sequence. */
  predicate Older(a: OrderedKey, b: OrderedKey) {
    || a.timestamp < b.timestamp
    || (a.timestamp == b.timestamp && (a.node < b.node || (a.node == b.node && a.sequence < b.sequence)))
  }

  predicate Fits(k: OrderedKey) {
    k.timestamp < U64 && k.node < U16 && k.sequence < U16
  }

  function ToBytes(k: OrderedKey): Bytes {
    ToBe(k.timestamp, 8) + ToBe(k.node, 2) + ToBe(k.sequence, 2)
  }

  function FromBytes(b: Bytes): Result<OrderedKey> {
    if |b| != 12 then Err(InvalidArgument)
    else Ok(OrderedKey(FromBe(b[..8]), FromBe(b[8..10]), FromBe(b[10..12])))
  }

  lemma BytesRoundTrip(k: OrderedKey)
    requires Fits(k)
    ensures FromBytes(ToBytes(k)) == Ok(k)
  {
    Pow256Literals();
    BeRoundTrip(k.timestamp, 8);
    BeRoundTrip(k.node, 2);
    BeRoundTrip(k.sequence, 2);
    hide ToBe, FromBe, Pow256;
    var b := ToBytes(k);
    assert b[..8] == ToBe(k.timestamp, 8) && b[8..10] == ToBe(k.node, 2) && b[10..12] == ToBe(k.sequence, 2);
  }

  /** The 12-byte forms sort exactly as the versions do. */
  lemma BytesKeepOrder(a: OrderedKey, b: OrderedKey)
    requires Fits(a) && Fits(b)
    ensures Lt(ToBytes(a), ToBytes(b)) <==> Older(a, b)
  {
    Pow256Literals();
    BeOrder(a.timestamp, b.timestamp, 8);
    BeOrder(a.node, b.node, 2);
    BeOrder(a.sequence, b.sequence, 2);
    hide ToBe, Pow256, Lt;
    var (at, an, aq) := (ToBe(a.timestamp, 8), ToBe(a.node, 2), ToBe(a.sequence, 2));
    var (bt, bn, bq) := (ToBe(b.timestamp, 8), ToBe(b.node, 2), ToBe(b.sequence, 2));
    assert ToBytes(a) == at + (an + aq) && ToBytes(b) == bt + (bn + bq);
    LtSameLengthConcat(at, an + aq, bt, bn + bq);
    LtSameLengthConcat(an, aq, bn, bq);
  }

  // --- The packed word ---

  /** `(timestamp << 16) | sequence` in 64 bits: the shift drops what leaves the word. */
  function Pack(timestamp: nat, sequence: nat): (word: nat)
    requires sequence < U16
    ensures word < U64
  {
    (timestamp % U48) * U16 + sequence
  }

  function Timestamp(word: nat): nat {
    word / U16
  }

  function Sequence(word: nat): nat {
    word % U16
  }

  lemma PackRoundTrip(timestamp: nat, sequence: nat)
    requires timestamp < U48 && sequence < U16
    ensures Timestamp(Pack(timestamp, sequence)) == timestamp
    ensures Sequence(Pack(timestamp, sequence)) == sequence
  {
  }

  // --- The state machine ---

  datatype Pc = Start | Clocked(now: nat) | Loaded(now: nat, seen: nat) | Spinning(target: nat)

  /** The shared word, where each thread stands, and the versions handed out, in order of the
      successful exchanges. */
  datatype State = State(word: nat, threads: map<nat, Pc>, issued: seq<OrderedKey>)

  datatype Action =
    | ReadClock(thread: nat, now: nat)
    | Load(thread: nat)
    | Exchange(thread: nat)

  function Init(): State {
    State(Pack(0, 0), map[], [])
  }

  function PcOf(s: State, thread: nat): Pc {
    if thread in s.threads then s.threads[thread] else Start
  }

  function At(s: State, thread: nat, pc: Pc): State {
    s.(threads := s.threads[thread := pc])
  }

  /** A compare-exchange from `seen`: it issues the version, or the thread starts over. */
  function Swap(s: State, thread: nat, seen: nat, next: nat, version: OrderedKey): State {
    if s.word == seen then At(s, thread, Start).(word := next, issued := s.issued + [version])
    else At(s, thread, Start)
  }

  /** What a thread does with the clock and the word it has read. */
  function Decide(s: State, node: nat, thread: nat, now: nat, seen: nat): State {
    var (last, next) := (Timestamp(seen), Sequence(seen));
    if now > last then Swap(s, thread, seen, Pack(now, 1), OrderedKey(now, node, 0))
    else if next == LAST_SEQUENCE then At(s, thread, Spinning(last))
    else Swap(s, thread, seen, (seen + 1) % U64, OrderedKey(last, node, next))
  }

  function Step(s: State, node: nat, a: Action): State {
    match a
    case ReadClock(t, now) =>
      (match PcOf(s, t)
       case Start => At(s, t, Clocked(now))
       case Spinning(target) => if now > target then At(s, t, Start) else s
       case _ => s)
    case Load(t) => if PcOf(s, t).Clocked? then At(s, t, Loaded(PcOf(s, t).now, s.word)) else s
    case Exchange(t) => if PcOf(s, t).Loaded? then Decide(s, node, t, PcOf(s, t).now, PcOf(s, t).seen) else s
  }

  function Run(node: nat, actions: seq<Action>): State {
    if actions == [] then Init() else Step(Run(node, actions[..|actions| - 1]), node, actions[|actions| - 1])
  }

  /** Every clock reading fits in 48 bits; readings are otherwise arbitrary and may go back. */
  predicate ClockFits(actions: seq<Action>) {
    forall i :: 0 <= i < |actions| && actions[i].ReadClock? ==> actions[i].now < U48
  }

  // --- The invariant ---

  /** Versions of one node strictly below the word, strictly increasing. */
  ghost predicate Ascending(issued: seq<OrderedKey>, node: nat, word: nat) {
    && (forall i :: 0 <= i < |issued| ==> issued[i].node == node && issued[i].timestamp < U48 && issued[i].sequence < LAST_SEQUENCE)
    && (forall i :: 0 <= i < |issued| ==> Below(issued[i], word))
    && (forall i, j :: 0 <= i < j < |issued| ==> Older(issued[i], issued[j]))
  }

  predicate Below(k: OrderedKey, word: nat) {
    k.timestamp < Timestamp(word) || (k.timestamp == Timestamp(word) && k.sequence < Sequence(word))
  }

  ghost predicate ThreadFits(pc: Pc) {
    (pc.Clocked? || pc.Loaded? ==> pc.now < U48) && (pc.Loaded? ==> pc.seen < U64)
  }

  ghost predicate Good(s: State, node: nat) {
    && s.word < U64
    && Ascending(s.issued, node, s.word)
    && forall t :: t in s.threads ==> ThreadFits(s.threads[t])
  }

  /** A successful exchange issues a version above every earlier one and moves the word above it. */
  lemma SwapKeeps(issued: seq<OrderedKey>, node: nat, word: nat, next: nat, version: OrderedKey)
    requires Ascending(issued, node, word)
    requires version.node == node && version.timestamp < U48 && version.sequence < LAST_SEQUENCE
    requires version.timestamp > Timestamp(word) || (version.timestamp == Timestamp(word) && version.sequence == Sequence(word))
    requires Below(version, next)
    ensures Ascending(issued + [version], node, next)
  {
    forall i | 0 <= i < |issued|
      ensures Older(issued[i], version) && Below(issued[i], next)
    {
      assert Below(issued[i], word);
    }
  }

  lemma WordArithmetic(word: nat)
    requires word < U64 && Sequence(word) != LAST_SEQUENCE
    ensures (word + 1) % U64 == word + 1
    ensures Timestamp(word + 1) == Timestamp(word) && Sequence(word + 1) == Sequence(word) + 1
  {
    var t, q := Timestamp(word), Sequence(word);
    assert word + 1 == t * U16 + (q + 1);
  }

  lemma DecideKeeps(s: State, node: nat, thread: nat, now: nat, seen: nat)
    requires Good(s, node) && now < U48
    ensures Good(Decide(s, node, thread, now, seen), node)
  {
    if s.word == seen {
      if now > Timestamp(seen) {
        PackRoundTrip(now, 1);
        SwapKeeps(s.issued, node, s.word, Pack(now, 1), OrderedKey(now, node, 0));
      } else if Sequence(seen) != LAST_SEQUENCE {
        WordArithmetic(seen);
        SwapKeeps(s.issued, node, s.word, seen + 1, OrderedKey(Timestamp(seen), node, Sequence(seen)));
      }
    }
  }

  lemma StepKeeps(s: State, node: nat, a: Action)
    requires Good(s, node)
    requires a.ReadClock? ==> a.now < U48
    ensures Good(Step(s, node, a), node)
  {
    var pc := PcOf(s, a.thread);
    assert ThreadFits(pc);
    if a.Exchange? && pc.Loaded? {
      DecideKeeps(s, node, a.thread, pc.now, pc.seen);
    }
  }

  lemma {:induction false} RunKeeps(node: nat, actions: seq<Action>)
    requires ClockFits(actions)
    ensures Good(Run(node, actions), node)
  {
    if actions != [] {
      var before := actions[..|actions| - 1];
      assert ClockFits(before) by {
        assert forall i :: 0 <= i < |before| ==> before[i] == actions[i];
      }
      RunKeeps(node, before);
      StepKeeps(Run(node, before), node, actions[|actions| - 1]);
    }
  }

  /** Every interleaving of every number of threads, under any clock that fits 48 bits: versions
      come out strictly increasing, and so do their encoded forms. */
  lemma {:induction false} VersionsIncrease(node: nat, actions: seq<Action>)
    requires node < U16 && ClockFits(actions)
    ensures StrictlyIncreasing(Run(node, actions).issued)
    ensures forall k :: k in Run(node, actions).issued ==> Fits(k) && k.node == node
  {
    RunKeeps(node, actions);
    var issued := Run(node, actions).issued;
    hide Run, ToBytes, Lt;
    forall i, j | 0 <= i < j < |issued|
      ensures Older(issued[i], issued[j]) && Lt(ToBytes(issued[i]), ToBytes(issued[j])) && issued[i] != issued[j]
    {
      BytesKeepOrder(issued[i], issued[j]);
    }
  }

  ghost predicate StrictlyIncreasing(issued: seq<OrderedKey>) {
    forall i, j :: 0 <= i < j < |issued| ==>
      Older(issued[i], issued[j]) && Lt(ToBytes(issued[i]), ToBytes(issued[j])) && issued[i] != issued[j]
  }

  // --- The bound on the clock is exact ---

  /** One uncontended call of a thread. */
  function Call(thread: nat, now: nat): seq<Action> {
    [ReadClock(thread, now), Load(thread), Exchange(thread)]
  }

  lemma RunSnoc(node: nat, actions: seq<Action>, a: Action)
    ensures Run(node, actions + [a]) == Step(Run(node, actions), node, a)
  {
    assert (actions + [a])[..|actions|] == actions;
  }

  lemma CallRuns(node: nat, actions: seq<Action>, thread: nat, now: nat)
    requires PcOf(Run(node, actions), thread) == Start
    ensures var s := Run(node, actions); var t := Run(node, actions + Call(thread, now));
            t == Decide(At(At(s, thread, Clocked(now)), thread, Loaded(now, s.word)), node, thread, now, s.word)
  {
    hide Run, Decide;
    var c := Call(thread, now);
    RunSnoc(node, actions, c[0]);
    RunSnoc(node, actions + [c[0]], c[1]);
    RunSnoc(node, actions + [c[0]] + [c[1]], c[2]);
    assert actions + [c[0]] + [c[1]] + [c[2]] == actions + c;
  }

  /** What one uncontended call returns: a version at the later of the clock and the last timestamp, the
      first of that timestamp if the clock is ahead and the next one otherwise; or, when the sequence of
      the timestamp is used up and the clock has not passed it, nothing yet. */
  lemma {:induction false} CallReturns(node: nat, actions: seq<Action>, thread: nat, now: nat)
    requires ClockFits(actions) && PcOf(Run(node, actions), thread) == Start && now < U48
    ensures var s := Run(node, actions); var t := Run(node, actions + Call(thread, now));
            var last, next := Timestamp(s.word), Sequence(s.word);
            if now <= last && next == LAST_SEQUENCE then t.issued == s.issued && t.word == s.word && PcOf(t, thread) == Spinning(last)
            else
              && t.issued == s.issued + [if now > last then OrderedKey(now, node, 0) else OrderedKey(last, node, next)]
              && Timestamp(t.word) == (if now > last then now else last) && Sequence(t.word) == (if now > last then 1 else next + 1)
              && PcOf(t, thread) == Start
  {
    RunKeeps(node, actions);
    var word := Run(node, actions).word;
    hide Run;
    CallRuns(node, actions, thread, now);
    PackRoundTrip(now, 1);
    if Sequence(word) != LAST_SEQUENCE {
      WordArithmetic(word);
    }
    hide Pack, Timestamp, Sequence;
  }

  /** A reading that does not fit is above every word, issues, and leaves a word it is still above. */
  lemma LateCall(node: nat, actions: seq<Action>, thread: nat, now: nat)
    requires Run(node, actions).word < U64 && PcOf(Run(node, actions), thread) == Start && now >= U48
    ensures var s := Run(node, actions); var t := Run(node, actions + Call(thread, now));
            t.issued == s.issued + [OrderedKey(now, node, 0)] && t.word < U64 && PcOf(t, thread) == Start
  {
    hide Run;
    CallRuns(node, actions, thread, now);
    assert Timestamp(Run(node, actions).word) < U48;
  }

  /** From every reachable word: two calls of an idle thread at one reading return increasing
      versions if and only if the reading fits in 48 bits. */
  lemma {:induction false} TwoCallsIncreaseIff(node: nat, actions: seq<Action>, thread: nat, now: nat)
    requires node < U16 && ClockFits(actions) && PcOf(Run(node, actions), thread) == Start
    ensures StrictlyIncreasing(Run(node, actions + Call(thread, now) + Call(thread, now)).issued) <==> now < U48
  {
    var once := actions + Call(thread, now);
    var twice := once + Call(thread, now);
    if now < U48 {
      assert ClockFits(twice);
      VersionsIncrease(node, twice);
    } else {
      RunKeeps(node, actions);
      hide Run, StrictlyIncreasing;
      LateCall(node, actions, thread, now);
      LateCall(node, once, thread, now);
      var issued := Run(node, twice).issued;
      NotIncreasing(issued, |Run(node, actions).issued|);
    }
  }

  lemma NotIncreasing(issued: seq<OrderedKey>, i: nat)
    requires i + 1 < |issued| && issued[i] == issued[i + 1]
    ensures !StrictlyIncreasing(issued)
  {
    hide ToBytes, Lt;
  }

  /** All clock readings of a run are among the given ones. */
  predicate Reads(actions: seq<Action>, readings: iset<nat>) {
    forall i :: 0 <= i < |actions| && actions[i].ReadClock? ==> actions[i].now in readings
  }

  ghost predicate AlwaysIncreasing(node: nat, readings: iset<nat>) {
    forall actions :: Reads(actions, readings) ==> StrictlyIncreasing(Run(node, actions).issued)
  }

  /** What a clock must satisfy, exactly: versions increase in every interleaving under it if and only
      if none of its readings leaves the 48 bits. */
  lemma {:induction false} ClockBoundIsExact(node: nat, readings: iset<nat>)
    requires node < U16
    ensures AlwaysIncreasing(node, readings) <==> forall now :: now in readings ==> now < U48
  {
    if forall now :: now in readings ==> now < U48 {
      forall actions | Reads(actions, readings)
        ensures StrictlyIncreasing(Run(node, actions).issued)
      {
        VersionsIncrease(node, actions);
      }
    } else {
      var now :| now in readings && now >= U48;
      TwoCallsIncreaseIff(node, [], 0, now);
      assert Reads([] + Call(0, now) + Call(0, now), readings);
    }
  }

  /** At 2^48 milliseconds the timestamp leaves the word: two calls in a row return one version. */
  lemma ClockPastTheWordRepeats(node: nat)
    ensures Run(node, Call(0, U48) + Call(0, U48)).issued == [OrderedKey(U48, node, 0), OrderedKey(U48, node, 0)]
  {
    assert Run(node, []) == Init();
    assert [] + Call(0, U48) == Call(0, U48);
    LateCall(node, [], 0, U48);
    LateCall(node, Call(0, U48), 0, U48);
  }
}
