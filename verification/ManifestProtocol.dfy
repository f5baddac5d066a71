/** Many managers racing on create-if-absent writes of numbered manifests
    (crates/flushdb-engine/src/manifest/manager.rs). Each step is one backend call or the local work
    between two calls, so a run is any interleaving. */
module ManifestProtocol {
  import opened Wrappers
  import opened Manifests

  const MAX_CAS_RETRIES: nat := 5

  /** What a refresh is done for. */
  datatype Goal =
    | JustLoad
    | Retry(update: Update, ticket: nat, attempt: nat)
    | ClaimWriter
    | ClaimCompactor

  datatype Pc =
    | Unloaded
    | Idle
    | Fetching(goal: Goal, id: nat)
    | Creating(goal: Goal)
    | Trying(update: Update, ticket: nat, attempt: nat)
    | ClaimingWriter
    | ClaimingCompactor

  datatype Manager = Manager(current: Manifest, writerEpoch: nat, compactorEpoch: nat, pc: Pc)

  /** How a stored manifest came about: who wrote it, under which epochs of its own, and the ticket of
      the submitted update, or none for an epoch claim. */
  datatype Commit = Commit(manager: nat, writerEpoch: nat, compactorEpoch: nat, update: Update, ticket: Option<nat>, now: nat, snapshot: bool)

  /** The shared store, the managers, and the history of successful writes. */
  datatype State = State(
    store: map<nat, Manifest>,
    managers: map<nat, Manager>,
    commits: map<nat, Commit>,
    nextTicket: nat,
    accepted: set<nat>)

  datatype Action =
    | ListFor(manager: nat, goal: Goal)
    | Fetch(manager: nat)
    | Create(manager: nat, now: nat)
    | LoadAt(manager: nat, version: nat)
    | Submit(manager: nat, update: Update)
    | Attempt(manager: nat, now: nat, snapshot: bool)

  function Init(): State {
    State(map[], map[], map[], 0, {})
  }

  function ManagerOf(s: State, id: nat): Manager {
    if id in s.managers then s.managers[id] else Manager(EmptyManifest(0), 0, 0, Unloaded)
  }

  function With(s: State, id: nat, m: Manager): State {
    s.(managers := s.managers[id := m])
  }

  /** `list_prefix` keeps the highest id; an empty listing leads to creating manifest 0. */
  function Highest(ids: set<nat>): nat
    requires ids != {}
  {
    HasHighest(ids);
    var h :| h in ids && forall i :: i in ids ==> i <= h;
    h
  }

  lemma {:induction false} HasHighest(ids: set<nat>)
    requires ids != {}
    ensures exists h :: h in ids && forall i :: i in ids ==> i <= h
  {
    var x :| x in ids;
    if ids != {x} {
      HasHighest(ids - {x});
      var h :| h in ids - {x} && forall i :: i in ids - {x} ==> i <= h;
      var top := if h < x then x else h;
      forall i | i in ids
        ensures i <= top
      {
        assert i == x || i in ids - {x};
      }
      assert top in ids;
    }
  }

  /** `validate_epoch` */
  predicate EpochAllows(m: Manager, u: Update) {
    match u.trigger
    case ByFlush => m.current.writerEpoch <= m.writerEpoch
    case ByCompaction => m.current.compactorEpoch <= m.compactorEpoch
    case ByGc => true
  }

  /** The check repeated after a lost race: the removed tables are still there. */
  predicate InputsPresent(m: Manifest, u: Update) {
    forall i :: 0 <= i < |u.remove| ==> u.remove[i].0 < LEVELS && PositionOf(m.levels[u.remove[i].0], u.remove[i].1).Some?
  }

  /** Where a manager goes once its refresh has delivered `m`. */
  function Resume(mgr: Manager, m: Manifest, goal: Goal): Manager {
    var loaded := mgr.(current := m);
    match goal
    case JustLoad => loaded.(pc := Idle)
    case ClaimWriter => loaded.(pc := ClaimingWriter)
    case ClaimCompactor => loaded.(pc := ClaimingCompactor)
    case Retry(u, ticket, attempt) =>
      if EpochAllows(loaded, u) && InputsPresent(m, u) then loaded.(pc := Trying(u, ticket, attempt)) else loaded.(pc := Idle)
  }

  /** The update an epoch claim writes. */
  function ClaimUpdate(m: Manifest, writer: bool): Update {
    if writer then Update(ByFlush, [], [], None, m.writerEpoch + 1, m.compactorEpoch)
    else Update(ByCompaction, [], [], None, m.writerEpoch, m.compactorEpoch + 1)
  }

  function Snapshotted(m: Manifest, snapshot: bool): Manifest {
    if snapshot then m.(isSnapshot := true) else m
  }

  /** The effect of a successful conditional write. */
  function Committed(s: State, id: nat, m: Manager, c: Commit): State {
    With(s, id, m).(
      store := s.store[m.current.id := m.current],
      commits := s.commits[m.current.id := c],
      accepted := s.accepted + if c.ticket.Some? then {c.ticket.value} else {})
  }

  /** One round of the retry loop of `update`. */
  function TryWrite(s: State, id: nat, mgr: Manager, now: nat, snapshot: bool): State
    requires mgr.pc.Trying?
  {
    var Trying(u, ticket, attempt) := mgr.pc;
    match Apply(u, mgr.current, now)
    case Err(_) => With(s, id, mgr.(pc := Idle))
    case Ok(applied) =>
      var m := Snapshotted(applied, snapshot);
      if m.id !in s.store then
        Committed(s, id, mgr.(current := m, pc := Idle), Commit(id, mgr.writerEpoch, mgr.compactorEpoch, u, Some(ticket), now, snapshot))
      else if attempt + 1 >= MAX_CAS_RETRIES then With(s, id, mgr.(pc := Idle))
      else RefreshFor(s, id, mgr, Retry(u, ticket, attempt + 1))
  }

  /** The conditional write of one manager, and what it makes of the outcome. */
  function AttemptWrite(s: State, id: nat, mgr: Manager, now: nat, snapshot: bool): State {
    match mgr.pc
    case Trying(_, _, _) => TryWrite(s, id, mgr, now, snapshot)
    case ClaimingWriter => ClaimWrite(s, id, mgr, now, true)
    case ClaimingCompactor => ClaimWrite(s, id, mgr, now, false)
    case _ => s
  }

  function ClaimWrite(s: State, id: nat, mgr: Manager, now: nat, writer: bool): State {
    var u := ClaimUpdate(mgr.current, writer);
    match Apply(u, mgr.current, now)
    case Err(_) => With(s, id, mgr.(pc := Idle))
    case Ok(m) =>
      if m.id in s.store then With(s, id, mgr.(pc := Idle))
      else
        var claimed := mgr.(current := m, pc := Idle,
                            writerEpoch := if writer then u.writerEpoch else mgr.writerEpoch,
                            compactorEpoch := if writer then mgr.compactorEpoch else u.compactorEpoch);
        Committed(s, id, claimed, Commit(id, claimed.writerEpoch, claimed.compactorEpoch, u, None, now, false))
  }

  function RefreshFor(s: State, id: nat, mgr: Manager, goal: Goal): State {
    With(s, id, mgr.(pc := if s.store == map[] then Creating(goal) else Fetching(goal, Highest(s.store.Keys))))
  }

  function Step(s: State, a: Action): State {
    var mgr := ManagerOf(s, a.manager);
    match a
    case ListFor(id, goal) =>
      if (mgr.pc.Idle? || mgr.pc.Unloaded?) && !goal.Retry? then RefreshFor(s, id, mgr, goal) else s
    case Fetch(id) =>
      if mgr.pc.Fetching? && mgr.pc.id in s.store then With(s, id, Resume(mgr, s.store[mgr.pc.id], mgr.pc.goal)) else s
    case Create(id, now) =>
      if !mgr.pc.Creating? then s
      else if 0 in s.store then With(s, id, Resume(mgr, s.store[0], mgr.pc.goal))
      else With(s, id, Resume(mgr, EmptyManifest(now), mgr.pc.goal)).(store := s.store[0 := EmptyManifest(now)])
    case LoadAt(id, version) =>
      if (mgr.pc.Idle? || mgr.pc.Unloaded?) && version in s.store then
        With(s, id, mgr.(current := s.store[version], pc := Idle))
      else s
    case Submit(id, u) =>
      if !mgr.pc.Idle? then s
      else if EpochAllows(mgr, u) && ValidUpdate(u, mgr.current) then
        With(s, id, mgr.(pc := Trying(u, s.nextTicket, 0))).(nextTicket := s.nextTicket + 1)
      else s
    case Attempt(id, now, snapshot) => AttemptWrite(s, id, mgr, now, snapshot)
  }

  function Run(actions: seq<Action>): State {
    if actions == [] then Init() else Step(Run(actions[..|actions| - 1]), actions[|actions| - 1])
  }

  // --- Linear history ---

  /** Manifest `i` is the recorded update applied to manifest `i - 1`. */
  ghost predicate Follows(s: State, i: nat) {
    && i >= 1 && i in s.commits && i in s.store && i - 1 in s.store
    && var c := s.commits[i];
       && Apply(c.update, s.store[i - 1], c.now).Ok?
       && s.store[i] == Snapshotted(Apply(c.update, s.store[i - 1], c.now).value, c.snapshot)
  }

  /** Ids are 0 to `n - 1`, manifest 0 is empty, and every other one follows its predecessor. */
  ghost predicate Linear(s: State, n: nat) {
    && (forall i :: i in s.store <==> 0 <= i < n)
    && (forall i :: i in s.commits <==> 1 <= i < n)
    && (forall i :: i in s.store ==> s.store[i].id == i)
    && (n > 0 ==> exists now :: s.store[0] == EmptyManifest(now))
    && (forall i :: 1 <= i < n ==> Follows(s, i))
  }

  /** Every accepted update stands in exactly one commit. */
  ghost predicate TicketsOnce(s: State) {
    && (forall t: nat :: t in s.accepted ==> t < s.nextTicket)
    && (forall i :: i in s.commits && s.commits[i].ticket.Some? ==> s.commits[i].ticket.value in s.accepted)
    && (forall t: nat :: t in s.accepted ==> exists i :: i in s.commits && s.commits[i].ticket == Some(t))
    && (forall i, j :: i in s.commits && j in s.commits && i != j && s.commits[i].ticket.Some? ==> s.commits[i].ticket != s.commits[j].ticket)
  }

  function TicketOf(p: Pc): Option<nat> {
    match p
    case Trying(_, ticket, _) => Some(ticket)
    case Fetching(Retry(_, ticket, _), _) => Some(ticket)
    case Creating(Retry(_, ticket, _)) => Some(ticket)
    case _ => None
  }

  /** An update still being tried is in no commit, and belongs to one manager. */
  ghost predicate TicketsFresh(s: State) {
    && (forall m :: m in s.managers && TicketOf(s.managers[m].pc).Some? ==>
          TicketOf(s.managers[m].pc).value < s.nextTicket && TicketOf(s.managers[m].pc).value !in s.accepted)
    && (forall m, k :: m in s.managers && k in s.managers && m != k && TicketOf(s.managers[m].pc).Some? ==>
          TicketOf(s.managers[m].pc) != TicketOf(s.managers[k].pc))
  }

  ghost predicate Stored(s: State, m: Manifest) {
    m.id in s.store && s.store[m.id] == m
  }

  /** A loaded manager's view is one of the stored manifests. */
  ghost predicate ViewStored(s: State, m: Manager) {
    match m.pc
    case Unloaded => true
    case Fetching(goal, id) => id in s.store
    case Creating(goal) => !goal.Retry?
    case _ => Stored(s, m.current)
  }

  ghost predicate ViewsStored(s: State) {
    forall id :: id in s.managers ==> ViewStored(s, s.managers[id])
  }

  ghost predicate Good(s: State, n: nat) {
    Linear(s, n) && TicketsOnce(s) && TicketsFresh(s) && ViewsStored(s)
  }

  /** A step that only moves one manager keeps everything, given that manager's own obligations. */
  lemma LocalMoveKeeps(s: State, n: nat, id: nat, m: Manager)
    requires Good(s, n)
    requires ViewStored(s, m)
    requires TicketOf(m.pc).None? || TicketOf(m.pc) == TicketOf(ManagerOf(s, id).pc)
    ensures Good(With(s, id, m), n)
  {
    var t := With(s, id, m);
    assert forall i :: 1 <= i < n ==> Follows(s, i) ==> Follows(t, i);
  }

  /** A write to a free id extends the history by one. */
  lemma CommitKeeps(s: State, n: nat, id: nat, m: Manager, c: Commit)
    requires Good(s, n)
    requires id in s.managers && Stored(s, s.managers[id].current)
    requires c.ticket == TicketOf(s.managers[id].pc)
    requires m.pc == Idle && m.current.id !in s.store
    requires Apply(c.update, s.managers[id].current, c.now).Ok?
    requires m.current == Snapshotted(Apply(c.update, s.managers[id].current, c.now).value, c.snapshot)
    ensures m.current.id == n
    ensures Good(Committed(s, id, m, c), n + 1)
  {
    var t := Committed(s, id, m, c);
    assert c.ticket.Some? ==> c.ticket.value !in s.accepted && c.ticket.value < s.nextTicket;
    CommitExtends(s, n, id, m, c);
    CommittedTickets(s, t, n, c);
    assert ViewsStored(t) by {
      hide Linear, TicketsOnce, TicketsFresh, Apply, Snapshotted;
    }
    assert TicketsFresh(t) by {
      hide Linear, TicketsOnce, Apply, Snapshotted;
    }
    hide Linear, TicketsOnce, TicketsFresh, ViewsStored;
  }

  lemma CommitExtends(s: State, n: nat, id: nat, m: Manager, c: Commit)
    requires Linear(s, n)
    requires id in s.managers && Stored(s, s.managers[id].current)
    requires m.current.id !in s.store
    requires Apply(c.update, s.managers[id].current, c.now).Ok?
    requires m.current == Snapshotted(Apply(c.update, s.managers[id].current, c.now).value, c.snapshot)
    ensures m.current.id == n
    ensures Linear(Committed(s, id, m, c), n + 1)
  {
    var base := s.managers[id].current;
    assert m.current.id == base.id + 1 && base.id < n;
    hide Apply;
    var t := Committed(s, id, m, c);
    forall i | 1 <= i < n + 1
      ensures Follows(t, i)
    {
      if i < n {
        assert Follows(s, i);
      }
    }
    hide Follows;
  }

  lemma CommittedTickets(s: State, t: State, n: nat, c: Commit)
    requires TicketsOnce(s) && n !in s.commits
    requires c.ticket.Some? ==> c.ticket.value !in s.accepted && c.ticket.value < s.nextTicket
    requires t.commits == s.commits[n := c] && t.nextTicket == s.nextTicket
    requires t.accepted == s.accepted + if c.ticket.Some? then {c.ticket.value} else {}
    ensures TicketsOnce(t)
  {
    forall k: nat | k in t.accepted
      ensures exists i :: i in t.commits && t.commits[i].ticket == Some(k)
    {
      if k in s.accepted {
        var i :| i in s.commits && s.commits[i].ticket == Some(k);
        assert t.commits[i].ticket == Some(k);
      } else {
        assert t.commits[n].ticket == Some(k);
      }
    }
  }

  /** Storing the first, empty manifest. */
  lemma CreateKeeps(s: State, n: nat, id: nat, m: Manager, now: nat)
    requires Good(s, n) && 0 !in s.store
    requires m.current == EmptyManifest(now) && TicketOf(m.pc).None? && (m.pc.Unloaded? || m.pc.Idle? || m.pc.ClaimingWriter? || m.pc.ClaimingCompactor?)
    ensures Good(With(s, id, m).(store := s.store[0 := m.current]), 1)
  {
    assert n == 0;
    assert s.store == map[];
  }

  lemma ResumeFits(s: State, mgr: Manager, m: Manifest, goal: Goal)
    requires Stored(s, m)
    ensures ViewStored(s, Resume(mgr, m, goal))
    ensures TicketOf(Resume(mgr, m, goal).pc).None? || (goal.Retry? && TicketOf(Resume(mgr, m, goal).pc) == Some(goal.ticket))
  {
  }

  lemma RefreshKeeps(s: State, n: nat, id: nat, goal: Goal)
    requires Good(s, n)
    requires goal.Retry? ==> n > 0 && TicketOf(ManagerOf(s, id).pc) == Some(goal.ticket)
    ensures Good(RefreshFor(s, id, ManagerOf(s, id), goal), n)
  {
    if goal.Retry? {
      assert 0 in s.store;
    }
    hide Good;
    LocalMoveKeeps(s, n, id, ManagerOf(s, id).(pc := if s.store == map[] then Creating(goal) else Fetching(goal, Highest(s.store.Keys))));
  }

  lemma LoadedView(s: State, n: nat, id: nat)
    requires Good(s, n)
    requires var pc := ManagerOf(s, id).pc; pc.Trying? || pc.ClaimingWriter? || pc.ClaimingCompactor?
    ensures n > 0 && id in s.managers && Stored(s, s.managers[id].current)
  {
    assert ViewStored(s, s.managers[id]);
  }

  lemma TryingKeeps(s: State, n: nat, id: nat, now: nat, snapshot: bool)
    requires Good(s, n) && ManagerOf(s, id).pc.Trying?
    ensures Good(TryWrite(s, id, ManagerOf(s, id), now, snapshot), n) || Good(TryWrite(s, id, ManagerOf(s, id), now, snapshot), n + 1)
  {
    hide Apply, With, Committed, RefreshFor, Good, Linear;
    LoadedView(s, n, id);
    var mgr := ManagerOf(s, id);
    var Trying(u, ticket, attempt) := mgr.pc;
    var r := Apply(u, mgr.current, now);
    LocalMoveKeeps(s, n, id, mgr.(pc := Idle));
    if r.Ok? {
      var m := Snapshotted(r.value, snapshot);
      if m.id !in s.store {
        CommitKeeps(s, n, id, mgr.(current := m, pc := Idle), Commit(id, mgr.writerEpoch, mgr.compactorEpoch, u, Some(ticket), now, snapshot));
      } else {
        RefreshKeeps(s, n, id, Retry(u, ticket, attempt + 1));
      }
    }
  }

  lemma ClaimKeeps(s: State, n: nat, id: nat, now: nat, writer: bool)
    requires Good(s, n) && ManagerOf(s, id).pc == (if writer then ClaimingWriter else ClaimingCompactor)
    ensures Good(ClaimWrite(s, id, ManagerOf(s, id), now, writer), n) || Good(ClaimWrite(s, id, ManagerOf(s, id), now, writer), n + 1)
  {
    hide Apply, With, Committed, Good, Linear;
    LoadedView(s, n, id);
    var mgr := ManagerOf(s, id);
    var u := ClaimUpdate(mgr.current, writer);
    var r := Apply(u, mgr.current, now);
    LocalMoveKeeps(s, n, id, mgr.(pc := Idle));
    if r.Ok? && r.value.id !in s.store {
      var m := r.value;
      var claimed := mgr.(current := m, pc := Idle,
                          writerEpoch := if writer then u.writerEpoch else mgr.writerEpoch,
                          compactorEpoch := if writer then mgr.compactorEpoch else u.compactorEpoch);
      CommitKeeps(s, n, id, claimed, Commit(id, claimed.writerEpoch, claimed.compactorEpoch, u, None, now, false));
    }
  }

  lemma SubmitKeeps(s: State, n: nat, a: Action)
    requires Good(s, n) && a.Submit?
    ensures Good(Step(s, a), n)
  {
    var t := Step(s, a);
    if t != s {
      assert forall i :: 1 <= i < n ==> Follows(s, i) ==> Follows(t, i);
      assert t.commits == s.commits && t.accepted == s.accepted;
      hide Step;
      assert TicketsOnce(t);
    }
  }

  /** Every step keeps the history linear: it leaves it as it was or extends it by one manifest. */
  lemma StepKeeps(s: State, n: nat, a: Action)
    requires Good(s, n)
    ensures Good(Step(s, a), n) || Good(Step(s, a), n + 1)
  {
    var id, mgr := a.manager, ManagerOf(s, a.manager);
    match a
    case ListFor(_, goal) => RefreshOrStay(s, n, a);
    case Fetch(_) =>
      if mgr.pc.Fetching? && mgr.pc.id in s.store {
        assert Stored(s, s.store[mgr.pc.id]);
        ResumeFits(s, mgr, s.store[mgr.pc.id], mgr.pc.goal);
        LocalMoveKeeps(s, n, id, Resume(mgr, s.store[mgr.pc.id], mgr.pc.goal));
      }
    case Create(_, now) =>
      if mgr.pc.Creating? {
        assert ViewStored(s, mgr);
        if 0 in s.store {
          ResumeFits(s, mgr, s.store[0], mgr.pc.goal);
          LocalMoveKeeps(s, n, id, Resume(mgr, s.store[0], mgr.pc.goal));
        } else {
          assert n == 0;
          CreateKeeps(s, n, id, Resume(mgr, EmptyManifest(now), mgr.pc.goal), now);
        }
      }
    case LoadAt(_, version) =>
      if (mgr.pc.Idle? || mgr.pc.Unloaded?) && version in s.store {
        LocalMoveKeeps(s, n, id, mgr.(current := s.store[version], pc := Idle));
      }
    case Submit(_, _) => SubmitKeeps(s, n, a);
    case Attempt(_, now, _) =>
      match mgr.pc
      case Trying(_, _, _) => TryingKeeps(s, n, id, now, a.snapshot);
      case ClaimingWriter => ClaimKeeps(s, n, id, now, true);
      case ClaimingCompactor => ClaimKeeps(s, n, id, now, false);
      case _ =>
  }

  lemma RefreshOrStay(s: State, n: nat, a: Action)
    requires Good(s, n) && a.ListFor?
    ensures Good(Step(s, a), n)
  {
    var mgr := ManagerOf(s, a.manager);
    if (mgr.pc.Idle? || mgr.pc.Unloaded?) && !a.goal.Retry? {
      RefreshKeeps(s, n, a.manager, a.goal);
    }
  }

  /** The history after any run, whatever the interleaving. */
  lemma {:induction false} RunIsGood(actions: seq<Action>) returns (n: nat)
    ensures Good(Run(actions), n)
  {
    if actions == [] {
      n := 0;
    } else {
      var before := actions[..|actions| - 1];
      n := RunIsGood(before);
      StepKeeps(Run(before), n, actions[|actions| - 1]);
      if !Good(Run(actions), n) {
        n := n + 1;
      }
    }
  }

  /** What a reader of the store may rely on after any run: contiguous ids, each manifest the
      recorded update applied to exactly the one before, each accepted update there exactly once, and
      a flushed sequence number that never goes back. */
  lemma {:induction false} HistoryIsLinear(actions: seq<Action>) returns (n: nat)
    ensures Linear(Run(actions), n)
    ensures TicketsOnce(Run(actions))
    ensures FlushedSequenceGrows(Run(actions))
  {
    n := RunIsGood(actions);
    var s := Run(actions);
    hide Run;
    forall i, j | i in s.store && j in s.store && i <= j
      ensures s.store[i].lastFlushed <= s.store[j].lastFlushed
    {
      FlushedBetween(s, n, i, j);
    }
  }

  ghost predicate FlushedSequenceGrows(s: State) {
    forall i, j :: i in s.store && j in s.store && i <= j ==> s.store[i].lastFlushed <= s.store[j].lastFlushed
  }

  lemma {:induction false} FlushedBetween(s: State, n: nat, i: nat, j: nat)
    requires Linear(s, n) && i <= j < n
    ensures s.store[i].lastFlushed <= s.store[j].lastFlushed
  {
    if i < j {
      FlushedBetween(s, n, i, j - 1);
      assert Follows(s, j);
    }
  }

  lemma {:induction false} Extend(before: seq<Action>, a: Action)
    ensures Run(before + [a]) == Step(Run(before), a)
    ensures forall role :: OwnEpochRun(before + [a], role) <==> OwnEpochRun(before, role) && CarriesOwnEpoch(Run(before), a, role)
  {
    var all := before + [a];
    assert all[..|all| - 1] == before;
  }

  ghost predicate Keeps(s: State, t: State) {
    && (forall i :: i in s.store ==> i in t.store && t.store[i] == s.store[i])
    && (forall i :: i in s.commits ==> i in t.commits)
  }

  lemma StepNeverOverwrites(s: State, a: Action)
    ensures Keeps(s, Step(s, a))
  {
    hide Apply, ValidUpdate, EpochAllows, InputsPresent;
  }

  /** A stored manifest is never replaced, whatever follows. */
  lemma {:induction false} StoredForever(before: seq<Action>, after: seq<Action>)
    ensures Keeps(Run(before), Run(before + after))
  {
    if after == [] {
      assert before + after == before;
    } else {
      var init := after[..|after| - 1];
      StoredForever(before, init);
      Extend(before + init, after[|after| - 1]);
      assert before + init + [after[|after| - 1]] == before + after;
      hide Run;
      StepNeverOverwrites(Run(before + init), after[|after| - 1]);
    }
  }

  // --- Fencing ---

  /** Each of the two epochs fences one kind of update. */
  datatype Role = Writer | Compactor

  function StoredEpoch(m: Manifest, role: Role): nat {
    if role.Writer? then m.writerEpoch else m.compactorEpoch
  }

  function OwnEpoch(m: Manager, role: Role): nat {
    if role.Writer? then m.writerEpoch else m.compactorEpoch
  }

  function CarriedEpoch(u: Update, role: Role): nat {
    if role.Writer? then u.writerEpoch else u.compactorEpoch
  }

  function CommitEpoch(c: Commit, role: Role): nat {
    if role.Writer? then c.writerEpoch else c.compactorEpoch
  }

  /** The update belongs to the role: its epoch is the one that is checked. */
  predicate Belongs(u: Update, role: Role) {
    u.trigger == if role.Writer? then ByFlush else ByCompaction
  }

  /** Submitted updates carry the submitting manager's own epoch of the role, as the flush pipeline and
      the compaction executor build them. */
  ghost predicate CarriesOwnEpoch(s: State, a: Action, role: Role) {
    a.Submit? ==> CarriedEpoch(a.update, role) == OwnEpoch(ManagerOf(s, a.manager), role)
  }

  ghost predicate OwnEpochRun(actions: seq<Action>, role: Role) {
    actions != [] ==>
      && OwnEpochRun(actions[..|actions| - 1], role)
      && CarriesOwnEpoch(Run(actions[..|actions| - 1]), actions[|actions| - 1], role)
  }

  /** Only updates of the role are submitted; both kinds of epochs may be claimed. */
  ghost predicate OnlyOf(actions: seq<Action>, role: Role) {
    forall i :: 0 <= i < |actions| && actions[i].Submit? ==> Belongs(actions[i].update, role)
  }

  /** A manager's pending update: its own epoch, and not below the epoch it was checked against. */
  ghost predicate Fenced(m: Manager, role: Role) {
    match m.pc
    case Trying(u, _, _) =>
      CarriedEpoch(u, role) == OwnEpoch(m, role) && (Belongs(u, role) ==> StoredEpoch(m.current, role) <= OwnEpoch(m, role))
    case Fetching(Retry(u, _, _), _) => CarriedEpoch(u, role) == OwnEpoch(m, role)
    case Creating(Retry(u, _, _)) => CarriedEpoch(u, role) == OwnEpoch(m, role)
    case _ => true
  }

  /** What a commit did to the epoch of the role: a submitted update stored its manager's own and, if it
      belongs to the role, was not behind; a claim of the role went one up and became its manager's own;
      a claim of the other role left it alone. */
  ghost predicate CommitFenced(s: State, i: nat, role: Role)
    requires i in s.commits && i >= 1 && i - 1 in s.store
  {
    var c, base := s.commits[i], StoredEpoch(s.store[i - 1], role);
    if c.ticket.Some? then CarriedEpoch(c.update, role) == CommitEpoch(c, role) && (Belongs(c.update, role) ==> base <= CommitEpoch(c, role))
    else if Belongs(c.update, role) then CarriedEpoch(c.update, role) == CommitEpoch(c, role) == base + 1
    else CarriedEpoch(c.update, role) == base
  }

  ghost predicate AllFenced(s: State, role: Role) {
    && (forall id :: id in s.managers ==> Fenced(s.managers[id], role))
    && (forall i :: i in s.commits ==> i >= 1 && i - 1 in s.store && CommitFenced(s, i, role))
  }

  lemma LocalMoveFenced(s: State, id: nat, m: Manager, role: Role)
    requires AllFenced(s, role) && Fenced(m, role)
    ensures AllFenced(With(s, id, m), role)
  {
    assert forall i :: i in s.commits ==> CommitFenced(s, i, role);
  }

  lemma CommitStaysFenced(s: State, n: nat, id: nat, m: Manager, c: Commit, role: Role)
    requires AllFenced(s, role) && Linear(s, n) && m.current.id == n > 0 && m.pc == Idle
    requires var t := Committed(s, id, m, c); CommitFenced(t, n, role)
    ensures AllFenced(Committed(s, id, m, c), role)
  {
    var t := Committed(s, id, m, c);
    forall i | i in t.commits
      ensures i >= 1 && i - 1 in t.store && CommitFenced(t, i, role)
    {
      if i != n {
        assert CommitFenced(s, i, role);
      }
    }
  }

  lemma TryWriteFenced(s: State, n: nat, id: nat, now: nat, snapshot: bool, role: Role)
    requires Good(s, n) && AllFenced(s, role) && ManagerOf(s, id).pc.Trying?
    ensures AllFenced(TryWrite(s, id, ManagerOf(s, id), now, snapshot), role)
  {
    LoadedView(s, n, id);
    var mgr := ManagerOf(s, id);
    assert Fenced(mgr, role);
    var Trying(u, ticket, attempt) := mgr.pc;
    var r := Apply(u, mgr.current, now);
    hide Apply, TicketsOnce, TicketsFresh, ViewsStored;
    LocalMoveFenced(s, id, mgr.(pc := Idle), role);
    if r.Ok? {
      var m := Snapshotted(r.value, snapshot);
      if m.id !in s.store {
        var c := Commit(id, mgr.writerEpoch, mgr.compactorEpoch, u, Some(ticket), now, snapshot);
        assert m.id == n;
        CommitStaysFenced(s, n, id, mgr.(current := m, pc := Idle), c, role);
      } else {
        var goal := Retry(u, ticket, attempt + 1);
        LocalMoveFenced(s, id, mgr.(pc := if s.store == map[] then Creating(goal) else Fetching(goal, Highest(s.store.Keys))), role);
      }
    }
  }

  lemma ClaimWriteFenced(s: State, n: nat, id: nat, now: nat, writer: bool, role: Role)
    requires Good(s, n) && AllFenced(s, role) && ManagerOf(s, id).pc == (if writer then ClaimingWriter else ClaimingCompactor)
    ensures AllFenced(ClaimWrite(s, id, ManagerOf(s, id), now, writer), role)
  {
    LoadedView(s, n, id);
    var mgr := ManagerOf(s, id);
    var u := ClaimUpdate(mgr.current, writer);
    var r := Apply(u, mgr.current, now);
    hide Apply, TicketsOnce, TicketsFresh, ViewsStored;
    LocalMoveFenced(s, id, mgr.(pc := Idle), role);
    if r.Ok? && r.value.id !in s.store {
      var m := r.value;
      var claimed := mgr.(current := m, pc := Idle,
                          writerEpoch := if writer then u.writerEpoch else mgr.writerEpoch,
                          compactorEpoch := if writer then mgr.compactorEpoch else u.compactorEpoch);
      assert m.id == n;
      CommitStaysFenced(s, n, id, claimed, Commit(id, claimed.writerEpoch, claimed.compactorEpoch, u, None, now, false), role);
    }
  }

  lemma FencedStep(s: State, n: nat, a: Action, role: Role)
    requires Good(s, n) && AllFenced(s, role) && CarriesOwnEpoch(s, a, role)
    ensures AllFenced(Step(s, a), role)
  {
    var id, mgr := a.manager, ManagerOf(s, a.manager);
    assert Fenced(mgr, role);
    if a.Attempt? {
      match mgr.pc
      case Trying(_, _, _) => TryWriteFenced(s, n, id, a.now, a.snapshot, role);
      case ClaimingWriter => ClaimWriteFenced(s, n, id, a.now, true, role);
      case ClaimingCompactor => ClaimWriteFenced(s, n, id, a.now, false, role);
      case _ =>
    } else {
      FencedQuietStep(s, n, a, role);
    }
  }

  /** Steps other than write attempts move at most one manager. */
  lemma QuietShape(s: State, a: Action)
    requires !a.Attempt?
    ensures var t := Step(s, a);
            && t.commits == s.commits
            && (t.managers == s.managers || t.managers == s.managers[a.manager := ManagerOf(t, a.manager)])
  {
    hide ValidUpdate, InputsPresent, EpochAllows, Resume, Highest;
  }

  lemma QuietManager(s: State, a: Action, role: Role)
    requires !a.Attempt? && Fenced(ManagerOf(s, a.manager), role) && CarriesOwnEpoch(s, a, role)
    ensures Fenced(ManagerOf(Step(s, a), a.manager), role)
  {
    hide ValidUpdate, InputsPresent, Highest;
  }

  lemma FencedQuietStep(s: State, n: nat, a: Action, role: Role)
    requires Good(s, n) && AllFenced(s, role) && CarriesOwnEpoch(s, a, role) && !a.Attempt?
    ensures AllFenced(Step(s, a), role)
  {
    hide Good, Step, Fenced, CarriesOwnEpoch;
    NewManagersFenced(role);
    assert Fenced(ManagerOf(s, a.manager), role);
    QuietManager(s, a, role);
    QuietShape(s, a);
    StepNeverOverwrites(s, a);
    assert forall i :: i in s.commits ==> CommitFenced(s, i, role);
  }

  lemma NewManagersFenced(role: Role)
    ensures Fenced(Manager(EmptyManifest(0), 0, 0, Unloaded), role)
  {
  }

  lemma {:induction false} RunIsFenced(actions: seq<Action>, role: Role)
    requires OwnEpochRun(actions, role)
    ensures AllFenced(Run(actions), role)
  {
    if actions != [] {
      var before := actions[..|actions| - 1];
      RunIsFenced(before, role);
      var n := RunIsGood(before);
      FencedStep(Run(before), n, actions[|actions| - 1], role);
    }
  }

  /** The exact circumstances in which a stored epoch goes back, when every update carries its manager's
      own epoch: an update that does not belong to the role, by a manager that is behind. For the
      writer epoch these are compaction and collection updates, for the compactor epoch flushes and
      collections. */
  lemma {:induction false} EpochFallsIff(actions: seq<Action>, role: Role, i: nat)
    requires OwnEpochRun(actions, role) && i in Run(actions).commits
    ensures i >= 1 && i in Run(actions).store && i - 1 in Run(actions).store
    ensures var c, base := Run(actions).commits[i], Run(actions).store[i - 1];
            StoredEpoch(Run(actions).store[i], role) < StoredEpoch(base, role)
            <==> c.ticket.Some? && !Belongs(c.update, role) && CommitEpoch(c, role) < StoredEpoch(base, role)
  {
    var n := RunIsGood(actions);
    RunIsFenced(actions, role);
    var s := Run(actions);
    hide Run, OwnEpochRun;
    assert Follows(s, i);
    assert CommitFenced(s, i, role);
  }

  lemma {:induction false} RunCommitsRole(actions: seq<Action>, role: Role)
    requires OnlyOf(actions, role)
    ensures RoleCommits(Run(actions), role)
  {
    if actions != [] {
      var before := actions[..|actions| - 1];
      var a := actions[|actions| - 1];
      assert OnlyOf(before, role) by {
        assert forall i :: 0 <= i < |before| ==> before[i] == actions[i];
      }
      RunCommitsRole(before, role);
      RoleStep(Run(before), a, role);
    }
  }

  ghost predicate RoleCommits(s: State, role: Role) {
    && (forall id :: id in s.managers ==> PendingRole(s.managers[id], role))
    && (forall i :: i in s.commits && s.commits[i].ticket.Some? ==> Belongs(s.commits[i].update, role))
  }

  ghost predicate PendingRole(m: Manager, role: Role) {
    match m.pc
    case Trying(u, _, _) => Belongs(u, role)
    case Fetching(Retry(u, _, _), _) => Belongs(u, role)
    case Creating(Retry(u, _, _)) => Belongs(u, role)
    case _ => true
  }

  lemma RoleStep(s: State, a: Action, role: Role)
    requires RoleCommits(s, role)
    requires a.Submit? ==> Belongs(a.update, role)
    ensures RoleCommits(Step(s, a), role)
  {
    var mgr := ManagerOf(s, a.manager);
    assert PendingRole(mgr, role);
    if a.Attempt? {
      if mgr.pc.Trying? {
        RoleTry(s, a.manager, a.now, a.snapshot, role);
      } else if mgr.pc.ClaimingWriter? || mgr.pc.ClaimingCompactor? {
        RoleClaim(s, a.manager, a.now, mgr.pc.ClaimingWriter?, role);
      }
    } else {
      hide ValidUpdate, EpochAllows, InputsPresent;
      var t := Step(s, a);
      var m := ManagerOf(t, a.manager);
      assert PendingRole(m, role);
      assert t.managers == s.managers || t.managers == s.managers[a.manager := m];
      assert t.commits == s.commits;
      hide Step;
    }
  }

  lemma RoleTry(s: State, id: nat, now: nat, snapshot: bool, role: Role)
    requires RoleCommits(s, role) && ManagerOf(s, id).pc.Trying?
    ensures RoleCommits(TryWrite(s, id, ManagerOf(s, id), now, snapshot), role)
  {
    hide Apply;
    assert PendingRole(ManagerOf(s, id), role);
  }

  lemma RoleClaim(s: State, id: nat, now: nat, writer: bool, role: Role)
    requires RoleCommits(s, role)
    ensures RoleCommits(ClaimWrite(s, id, ManagerOf(s, id), now, writer), role)
  {
    hide Apply, ClaimUpdate;
  }

  /** Fencing, for either role: with updates of the role only, carrying their manager's own epoch, the
      stored epoch never falls, epoch claims never repeat, and no manager commits an update under an
      epoch below one already stored. */
  lemma {:induction false} RoleFencing(actions: seq<Action>, role: Role)
    requires OwnEpochRun(actions, role) && OnlyOf(actions, role)
    ensures EpochsGrow(Run(actions), role)
    ensures ClaimsDistinct(Run(actions), role)
    ensures NoStaleUpdate(Run(actions), role)
  {
    var n := RunIsGood(actions);
    RunIsFenced(actions, role);
    RunCommitsRole(actions, role);
    var s := Run(actions);
    assert Linear(s, n);
    hide Run, OwnEpochRun, OnlyOf, Apply, ViewsStored, TicketsOnce, TicketsFresh;
    forall i, j | i in s.store && j in s.store && i <= j
      ensures StoredEpoch(s.store[i], role) <= StoredEpoch(s.store[j], role)
    {
      EpochsBetween(s, n, i, j, role);
    }
    forall j | j in s.commits
      ensures 1 <= j && j - 1 in s.store && CommitFenced(s, j, role)
    {
      StoresCarried(s, n, j, role);
    }
    hide Linear, AllFenced, RoleCommits;
    assert NoStaleUpdate(s, role);
    forall i, j | i in s.commits && j in s.commits && i < j && IsClaim(s.commits[i], role) && IsClaim(s.commits[j], role)
      ensures CommitEpoch(s.commits[i], role) < CommitEpoch(s.commits[j], role)
    {
      StoresCarried(s, n, i, role);
      assert CommitEpoch(s.commits[j], role) == StoredEpoch(s.store[j - 1], role) + 1;
    }
  }

  /** Writer fencing, in runs of flushes and claims of both epochs. */
  lemma {:induction false} WriterFencing(actions: seq<Action>)
    requires OwnEpochRun(actions, Writer) && OnlyOf(actions, Writer)
    ensures EpochsGrow(Run(actions), Writer) && ClaimsDistinct(Run(actions), Writer) && NoStaleUpdate(Run(actions), Writer)
  {
    hide Run, OwnEpochRun, OnlyOf, EpochsGrow, ClaimsDistinct, NoStaleUpdate;
    RoleFencing(actions, Writer);
  }

  /** Compactor fencing, in runs of compactions and claims of both epochs. */
  lemma {:induction false} CompactorFencing(actions: seq<Action>)
    requires OwnEpochRun(actions, Compactor) && OnlyOf(actions, Compactor)
    ensures EpochsGrow(Run(actions), Compactor) && ClaimsDistinct(Run(actions), Compactor) && NoStaleUpdate(Run(actions), Compactor)
  {
    hide Run, OwnEpochRun, OnlyOf, EpochsGrow, ClaimsDistinct, NoStaleUpdate;
    RoleFencing(actions, Compactor);
  }

  predicate IsClaim(c: Commit, role: Role) {
    c.ticket.None? && Belongs(c.update, role)
  }

  ghost predicate EpochsGrow(s: State, role: Role) {
    forall i, j :: i in s.store && j in s.store && i <= j ==> StoredEpoch(s.store[i], role) <= StoredEpoch(s.store[j], role)
  }

  ghost predicate ClaimsDistinct(s: State, role: Role) {
    forall i, j :: i in s.commits && j in s.commits && i < j && IsClaim(s.commits[i], role) && IsClaim(s.commits[j], role)
      ==> CommitEpoch(s.commits[i], role) < CommitEpoch(s.commits[j], role)
  }

  ghost predicate NoStaleUpdate(s: State, role: Role) {
    forall i, j :: i in s.store && j in s.commits && i < j && Belongs(s.commits[j].update, role)
      ==> StoredEpoch(s.store[i], role) <= CommitEpoch(s.commits[j], role)
  }

  lemma StoresCarried(s: State, n: nat, j: nat, role: Role)
    requires Linear(s, n) && AllFenced(s, role) && j in s.commits
    ensures 1 <= j && j - 1 in s.store && j in s.store && CommitFenced(s, j, role)
    ensures StoredEpoch(s.store[j], role) == CarriedEpoch(s.commits[j].update, role)
  {
    assert Follows(s, j);
  }

  lemma {:induction false} EpochsBetween(s: State, n: nat, i: nat, j: nat, role: Role)
    requires Linear(s, n) && AllFenced(s, role) && RoleCommits(s, role) && i <= j < n
    ensures StoredEpoch(s.store[i], role) <= StoredEpoch(s.store[j], role)
  {
    if i < j {
      EpochsBetween(s, n, i, j - 1, role);
      StoresCarried(s, n, j, role);
    }
  }

  // --- Why updates of the other kind are kept out of the fencing theorem ---

  function ClaimGoal(role: Role): Goal {
    if role.Writer? then ClaimWriter else ClaimCompactor
  }

  /** An empty update that does not belong to the role, from a manager that holds no epoch. */
  function Foreign(role: Role): Update {
    Update(if role.Writer? then ByCompaction else ByFlush, [], [], None, 0, 0)
  }

  /** Manager 0 claims epoch 1; manager 1, which never claimed, commits an empty update of the other
      kind under its own epoch 0; manager 2 then claims. */
  function FirstClaim(role: Role): seq<Action> {
    [ListFor(0, ClaimGoal(role)), Create(0, 0), Attempt(0, 0, false)]
  }

  function StaleUpdate(role: Role): seq<Action> {
    [ListFor(1, JustLoad), Fetch(1), Submit(1, Foreign(role)), Attempt(1, 0, false)]
  }

  function SecondClaim(role: Role): seq<Action> {
    [ListFor(2, ClaimGoal(role)), Fetch(2), Attempt(2, 0, false)]
  }

  /** A stored manifest of that run: no tables, the given id and epoch of the role. */
  function Bare(id: nat, epoch: nat, role: Role): Manifest {
    EmptyManifest(0).(id := id, previous := if id == 0 then 0 else id - 1,
                      writerEpoch := if role.Writer? then epoch else 0, compactorEpoch := if role.Writer? then 0 else epoch)
  }

  lemma BareStep(u: Update, id: nat, epoch: nat, role: Role)
    requires u.add == [] && u.remove == [] && u.newLastFlushed == None && CarriedEpoch(u, if role.Writer? then Compactor else Writer) == 0
    ensures Apply(u, Bare(id, epoch, role), 0) == Ok(Bare(id + 1, CarriedEpoch(u, role), role))
  {
  }

  lemma FirstClaimCommits(role: Role)
    ensures OwnEpochRun(FirstClaim(role), role)
    ensures var s := Run(FirstClaim(role));
            && s.store == map[0 := Bare(0, 0, role), 1 := Bare(1, 1, role)] && 1 !in s.managers && 2 !in s.managers
            && 1 in s.commits && IsClaim(s.commits[1], role) && CommitEpoch(s.commits[1], role) == 1
  {
    var r := FirstClaim(role);
    Extend([], r[0]);
    Extend([r[0]], r[1]);
    Extend([r[0], r[1]], r[2]);
    assert r == [r[0], r[1]] + [r[2]] && [r[0], r[1]] == [r[0]] + [r[1]] && [r[0]] == [] + [r[0]];
    assert EmptyManifest(0) == Bare(0, 0, role);
    BareStep(ClaimUpdate(Bare(0, 0, role), role.Writer?), 0, 0, role);
    assert OwnEpochRun([], role) && Run([]) == Init();
    hide Run, OwnEpochRun, Apply;
    var s1 := Step(Init(), r[0]);
    assert s1.managers == map[0 := Manager(Bare(0, 0, role), 0, 0, Creating(ClaimGoal(role)))] && s1.store == map[];
    var s2 := Step(s1, r[1]);
    assert s2.managers == map[0 := Manager(Bare(0, 0, role), 0, 0, if role.Writer? then ClaimingWriter else ClaimingCompactor)];
    assert s2.store == map[0 := Bare(0, 0, role)];
  }

  lemma HighestIs(ids: set<nat>, h: nat)
    requires h in ids && forall i :: i in ids ==> i <= h
    ensures Highest(ids) == h
  {
  }

  /** A new manager's load, as two steps of the run. */
  lemma {:induction false} LoadStage(before: seq<Action>, id: nat, goal: Goal, top: nat, role: Role)
    requires OwnEpochRun(before, role) && !goal.Retry?
    requires id !in Run(before).managers && top in Run(before).store
    requires forall i :: i in Run(before).store ==> i <= top
    ensures OwnEpochRun(before + [ListFor(id, goal), Fetch(id)], role)
    ensures Run(before + [ListFor(id, goal), Fetch(id)]) ==
            With(Run(before), id, Resume(ManagerOf(Run(before), id), Run(before).store[top], goal))
  {
    var b1 := before + [ListFor(id, goal)];
    Extend(before, ListFor(id, goal));
    Extend(b1, Fetch(id));
    assert b1 + [Fetch(id)] == before + [ListFor(id, goal), Fetch(id)];
    HighestIs(Run(before).store.Keys, top);
  }

  lemma {:induction false} StaleUpdateCommits(before: seq<Action>, role: Role)
    requires OwnEpochRun(before, role)
    requires Run(before).store == map[0 := Bare(0, 0, role), 1 := Bare(1, 1, role)] && 1 !in Run(before).managers
    ensures OwnEpochRun(before + StaleUpdate(role), role)
    ensures var s := Run(before + StaleUpdate(role));
            && s.store == map[0 := Bare(0, 0, role), 1 := Bare(1, 1, role), 2 := Bare(2, 0, role)]
            && s.managers.Keys == Run(before).managers.Keys + {1}
            && 2 in s.commits && s.commits == Run(before).commits[2 := s.commits[2]]
  {
    hide Run, OwnEpochRun, Apply, Step, Bare, Resume;
    var submit, attempt := Submit(1, Foreign(role)), Attempt(1, 0, false);
    var b2 := before + [ListFor(1, JustLoad), Fetch(1)];
    LoadStage(before, 1, JustLoad, 1, role);
    Extend(b2, submit);
    Extend(b2 + [submit], attempt);
    assert b2 + [submit] + [attempt] == before + StaleUpdate(role);
    JustLoads(Run(before), 1, Bare(1, 1, role));
    LateUpdate(Run(b2), role);
  }

  lemma LateUpdate(s: State, role: Role)
    requires s.store == map[0 := Bare(0, 0, role), 1 := Bare(1, 1, role)]
    requires 1 in s.managers && s.managers[1] == Manager(Bare(1, 1, role), 0, 0, Idle)
    ensures var t := Step(Step(s, Submit(1, Foreign(role))), Attempt(1, 0, false));
            && t.store == map[0 := Bare(0, 0, role), 1 := Bare(1, 1, role), 2 := Bare(2, 0, role)]
            && t.managers.Keys == s.managers.Keys
            && 2 in t.commits && t.commits == s.commits[2 := t.commits[2]]
  {
    BareStep(Foreign(role), 1, 1, role);
    hide Apply;
  }

  lemma {:induction false} SecondClaimCommits(before: seq<Action>, role: Role)
    requires OwnEpochRun(before, role)
    requires Run(before).store == map[0 := Bare(0, 0, role), 1 := Bare(1, 1, role), 2 := Bare(2, 0, role)] && 2 !in Run(before).managers
    ensures OwnEpochRun(before + SecondClaim(role), role)
    ensures var s := Run(before + SecondClaim(role));
            && 3 in s.commits && s.commits == Run(before).commits[3 := s.commits[3]]
            && IsClaim(s.commits[3], role) && CommitEpoch(s.commits[3], role) == 1
  {
    hide Run, OwnEpochRun, Apply, Step;
    var attempt := Attempt(2, 0, false);
    var b2 := before + [ListFor(2, ClaimGoal(role)), Fetch(2)];
    LoadStage(before, 2, ClaimGoal(role), 2, role);
    Extend(b2, attempt);
    assert b2 + [attempt] == before + SecondClaim(role);
    LateClaim(Run(b2), role);
  }

  lemma LateClaim(s: State, role: Role)
    requires s.store == map[0 := Bare(0, 0, role), 1 := Bare(1, 1, role), 2 := Bare(2, 0, role)]
    requires 2 in s.managers && s.managers[2] == Manager(Bare(2, 0, role), 0, 0, if role.Writer? then ClaimingWriter else ClaimingCompactor)
    ensures var t := Step(s, Attempt(2, 0, false));
            && 3 in t.commits && t.commits == s.commits[3 := t.commits[3]]
            && IsClaim(t.commits[3], role) && CommitEpoch(t.commits[3], role) == 1
  {
    BareStep(ClaimUpdate(Bare(2, 0, role), role.Writer?), 2, 0, role);
    hide Apply;
  }

  lemma JustLoads(s: State, id: nat, m: Manifest)
    requires id !in s.managers
    ensures Resume(ManagerOf(s, id), m, JustLoad) == Manager(m, 0, 0, Idle)
  {
  }

  /** One update of the other kind by a manager that holds no epoch of the role, and two managers are
      given epoch 1: a compaction does it to the writers, a flush to the compactors. */
  lemma {:induction false} StaleUpdateRepeatsEpoch(role: Role) returns (actions: seq<Action>)
    ensures OwnEpochRun(actions, role)
    ensures !EpochsGrow(Run(actions), role) && !ClaimsDistinct(Run(actions), role)
  {
    hide Run, OwnEpochRun, StaleUpdate, SecondClaim, FirstClaim, Bare;
    FirstClaimCommits(role);
    StaleUpdateCommits(FirstClaim(role), role);
    var b := FirstClaim(role) + StaleUpdate(role);
    SecondClaimCommits(b, role);
    actions := b + SecondClaim(role);
    var s := Run(actions);
    assert IsClaim(s.commits[1], role) && IsClaim(s.commits[3], role);
    StoredForever(b, SecondClaim(role));
    BareEpochs(role);
    assert StoredEpoch(s.store[2], role) < StoredEpoch(s.store[1], role);
  }

  lemma BareEpochs(role: Role)
    ensures StoredEpoch(Bare(1, 1, role), role) == 1 && StoredEpoch(Bare(2, 0, role), role) == 0
  {
  }
}
