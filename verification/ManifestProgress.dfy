/** When updates and epoch claims go through (crates/flushdb-engine/src/manifest/manager.rs), and what the
    stored manifest then holds. */
module ManifestProgress {
  import opened Wrappers
  import opened ByteStrings
  import opened Tables
  import opened Manifests
  import opened ManifestProtocol
  import L = LevelInvariants

  // --- What an update does to the levels ---

  ghost predicate DistinctPerLevel(levels: Levels) {
    forall l :: 0 <= l < LEVELS ==> L.DistinctIds(levels[l])
  }

  ghost predicate HasId(levels: Levels, at: (nat, nat)) {
    at.0 < LEVELS && exists t :: t in levels[at.0] && t.id == at.1
  }

  predicate NoRepeats(pairs: seq<(nat, nat)>) {
    forall i, j :: 0 <= i < j < |pairs| ==> pairs[i] != pairs[j]
  }

  /** `out` is `levels` without the tables named. */
  ghost predicate Without(levels: Levels, out: Levels, gone: seq<(nat, nat)>) {
    forall l, t :: 0 <= l < LEVELS ==> (t in out[l] <==> t in levels[l] && (l, t.id) !in gone)
  }

  lemma RemoveOneMembers(levels: Levels, at: (nat, nat))
    requires DistinctPerLevel(levels)
    ensures RemoveOne(levels, at.0, at.1).Ok? <==> HasId(levels, at)
    ensures RemoveOne(levels, at.0, at.1).Ok? ==>
              DistinctPerLevel(RemoveOne(levels, at.0, at.1).value) && Without(levels, RemoveOne(levels, at.0, at.1).value, [at])
  {
    FoundIsThere(levels, at);
    if HasId(levels, at) {
      var x :| x in levels[at.0] && x.id == at.1;
      L.RemoveOneIsMinus(levels, at.0, x);
      L.MinusMembers(levels[at.0], {x.id});
      L.MinusKeepsDistinct(levels[at.0], {x.id});
      hide RemoveOne, L.MinusIds, L.DistinctIds;
      var out := RemoveOne(levels, at.0, at.1).value;
      forall l, t | 0 <= l < LEVELS
        ensures t in out[l] <==> t in levels[l] && (l, t.id) !in [at]
      {
        assert out[l] == if l == at.0 then L.MinusIds(levels[l], {x.id}) else levels[l];
      }
    }
  }

  lemma {:induction false} RemoveAllMembers(levels: Levels, remove: seq<(nat, nat)>)
    requires DistinctPerLevel(levels) && NoRepeats(remove)
    ensures RemoveAll(levels, remove).Ok? <==> forall i :: 0 <= i < |remove| ==> HasId(levels, remove[i])
    ensures RemoveAll(levels, remove).Ok? ==> Without(levels, RemoveAll(levels, remove).value, remove)
    decreases |remove|
  {
    hide L.DistinctIds, HasId, RemoveOne, Without, DistinctPerLevel;
    if remove == [] {
      NothingGone(levels);
    } else {
      var first, rest := remove[0], remove[1..];
      RemoveOneMembers(levels, first);
      assert forall i :: 0 <= i < |rest| ==> rest[i] == remove[i + 1];
      if HasId(levels, first) {
        var next := RemoveOne(levels, first.0, first.1).value;
        RemoveAllMembers(next, rest);
        forall i | 0 <= i < |rest|
          ensures HasId(next, rest[i]) <==> HasId(levels, rest[i])
        {
          StillHas(levels, next, first, rest[i]);
        }
        assert (forall i :: 0 <= i < |remove| ==> HasId(levels, remove[i])) <==> forall i :: 0 <= i < |rest| ==> HasId(levels, rest[i]);
        if RemoveAll(next, rest).Ok? {
          GoneTwice(levels, next, RemoveAll(next, rest).value, remove);
        }
      }
    }
  }

  lemma NothingGone(levels: Levels)
    ensures Without(levels, levels, [])
  {
  }

  lemma GoneTwice(levels: Levels, next: Levels, out: Levels, remove: seq<(nat, nat)>)
    requires remove != [] && Without(levels, next, [remove[0]]) && Without(next, out, remove[1..])
    ensures Without(levels, out, remove)
  {
    forall l, t | 0 <= l < LEVELS
      ensures t in out[l] <==> t in levels[l] && (l, t.id) !in remove
    {
      assert (l, t.id) in remove <==> (l, t.id) == remove[0] || (l, t.id) in remove[1..];
      assert t in next[l] <==> t in levels[l] && (l, t.id) !in [remove[0]];
      assert t in out[l] <==> t in next[l] && (l, t.id) !in remove[1..];
    }
  }

  lemma StillHas(levels: Levels, next: Levels, gone: (nat, nat), at: (nat, nat))
    requires Without(levels, next, [gone]) && at != gone
    ensures HasId(next, at) <==> HasId(levels, at)
  {
    if HasId(levels, at) {
      var t :| t in levels[at.0] && t.id == at.1;
      assert t in next[at.0];
    }
    if HasId(next, at) {
      var t :| t in next[at.0] && t.id == at.1;
      assert t in levels[at.0];
    }
  }

  /** `out` is `levels` with the tables added. */
  ghost predicate Including(levels: Levels, out: Levels, add: seq<(nat, Table)>) {
    forall l, t :: 0 <= l < LEVELS ==> (t in out[l] <==> t in levels[l] || (l, t) in add)
  }

  lemma AddOneMembers(levels: Levels, level: nat, x: Table)
    requires level < LEVELS
    ensures Including(levels, AddOne(levels, level, x), [(level, x)])
  {
    var grown, out := levels[level] + [x], AddOne(levels, level, x);
    SortByMinCorrect(grown);
    forall t
      ensures t in SortByMin(grown) <==> t in levels[level] || t == x
    {
      assert t in SortByMin(grown) <==> t in multiset(SortByMin(grown));
      assert t in grown <==> t in multiset(grown);
    }
    hide SortByMin;
    forall l, t | 0 <= l < LEVELS
      ensures t in out[l] <==> t in levels[l] || (l, t) in [(level, x)]
    {
      assert out[l] == if l != level then levels[l] else if level == 0 then grown else SortByMin(grown);
    }
  }

  lemma {:induction false} AddAllMembers(levels: Levels, add: seq<(nat, Table)>)
    requires forall i :: 0 <= i < |add| ==> add[i].0 < LEVELS
    ensures Including(levels, AddAll(levels, add), add)
    decreases |add|
  {
    hide AddOne, Including;
    if add == [] {
      NothingAdded(levels);
    } else {
      assert forall i :: 0 <= i < |add[1..]| ==> add[1..][i] == add[i + 1];
      var next := AddOne(levels, add[0].0, add[0].1);
      AddOneMembers(levels, add[0].0, add[0].1);
      AddAllMembers(next, add[1..]);
      AddedTwice(levels, next, AddAll(next, add[1..]), add);
    }
  }

  lemma NothingAdded(levels: Levels)
    ensures Including(levels, levels, [])
  {
  }

  lemma AddedTwice(levels: Levels, next: Levels, out: Levels, add: seq<(nat, Table)>)
    requires add != [] && Including(levels, next, [add[0]]) && Including(next, out, add[1..])
    ensures Including(levels, out, add)
  {
    forall l, t | 0 <= l < LEVELS
      ensures t in out[l] <==> t in levels[l] || (l, t) in add
    {
      assert (l, t) in add <==> (l, t) == add[0] || (l, t) in add[1..];
      assert t in next[l] <==> t in levels[l] || (l, t) in [add[0]];
      assert t in out[l] <==> t in next[l] || (l, t) in add[1..];
    }
  }

  /** The tables after an update. */
  ghost predicate Updated(levels: Levels, out: Levels, u: Update) {
    forall l, t :: 0 <= l < LEVELS ==> (t in out[l] <==> (t in levels[l] && (l, t.id) !in u.remove) || (l, t) in u.add)
  }

  lemma BothUpdated(levels: Levels, mid: Levels, out: Levels, u: Update)
    requires Without(levels, mid, u.remove) && Including(mid, out, u.add)
    ensures Updated(levels, out, u)
  {
    forall l, t | 0 <= l < LEVELS
      ensures t in out[l] <==> (t in levels[l] && (l, t.id) !in u.remove) || (l, t) in u.add
    {
      assert t in mid[l] <==> t in levels[l] && (l, t.id) !in u.remove;
      assert t in out[l] <==> t in mid[l] || (l, t) in u.add;
    }
  }

  /** What `apply` makes of a manifest: the next id, the update's epochs, the tables without those removed
      and with those added, and the flushed mark, which may not go back. */
  lemma {:induction false} ApplyHolds(u: Update, m: Manifest, now: nat)
    requires DistinctPerLevel(m.levels) && NoRepeats(u.remove) && forall i :: 0 <= i < |u.add| ==> u.add[i].0 < LEVELS
    ensures Apply(u, m, now).Ok? <==>
            (forall i :: 0 <= i < |u.remove| ==> HasId(m.levels, u.remove[i])) && (u.newLastFlushed.Some? ==> u.newLastFlushed.value >= m.lastFlushed)
    ensures Apply(u, m, now).Ok? ==>
              var a := Apply(u, m, now).value;
              && a.id == m.id + 1 && a.previous == m.id && a.createdAt == now && a.isSnapshot == m.isSnapshot
              && a.writerEpoch == u.writerEpoch && a.compactorEpoch == u.compactorEpoch
              && a.lastFlushed == (if u.newLastFlushed.Some? then u.newLastFlushed.value else m.lastFlushed)
              && Updated(m.levels, a.levels, u)
  {
    hide L.DistinctIds, RemoveAll, AddAll, HasId, Without, Including, Updated;
    RemoveAllMembers(m.levels, u.remove);
    var removed := RemoveAll(m.levels, u.remove);
    if removed.Ok? {
      AddAllMembers(removed.value, u.add);
      BothUpdated(m.levels, removed.value, AddAll(removed.value, u.add), u);
    }
  }

  // --- Updates ---

  /** The update is allowed on what the manager holds: its epoch is not behind, the tables it removes are
      there, those it adds are not, and the flushed mark does not go back. */
  ghost predicate Allowed(m: Manager, u: Update) {
    && (u.trigger == ByFlush ==> m.current.writerEpoch <= m.writerEpoch)
    && (u.trigger == ByCompaction ==> m.current.compactorEpoch <= m.compactorEpoch)
    && (forall i :: 0 <= i < |u.remove| ==> HasId(m.current.levels, u.remove[i]))
    && (forall i :: 0 <= i < |u.add| ==> u.add[i].0 < LEVELS && !HasId(m.current.levels, (u.add[i].0, u.add[i].1.id)))
    && (u.newLastFlushed.Some? ==> u.newLastFlushed.value >= m.current.lastFlushed)
  }

  lemma AllowedIff(m: Manager, u: Update)
    ensures Allowed(m, u) <==> EpochAllows(m, u) && ValidUpdate(u, m.current)
  {
    forall i | 0 <= i < |u.remove|
      ensures HasId(m.current.levels, u.remove[i]) <==>
              u.remove[i].0 < LEVELS && PositionOf(m.current.levels[u.remove[i].0], u.remove[i].1).Some?
    {
      FoundIsThere(m.current.levels, u.remove[i]);
    }
    forall i | 0 <= i < |u.add| && u.add[i].0 < LEVELS
      ensures HasId(m.current.levels, (u.add[i].0, u.add[i].1.id)) <==> PositionOf(m.current.levels[u.add[i].0], u.add[i].1.id).Some?
    {
      FoundIsThere(m.current.levels, (u.add[i].0, u.add[i].1.id));
    }
    hide HasId, PositionOf;
  }

  lemma FoundIsThere(levels: Levels, at: (nat, nat))
    ensures HasId(levels, at) <==> at.0 < LEVELS && PositionOf(levels[at.0], at.1).Some?
  {
    if at.0 < LEVELS {
      var p := PositionOf(levels[at.0], at.1);
      assert p.Some? ==> levels[at.0][p.value] in levels[at.0];
    }
  }

  ghost predicate UpToDate(s: State, id: nat) {
    var m := ManagerOf(s, id);
    m.pc == Idle && m.current.id + 1 !in s.store
  }

  /** An update of a manager that is up to date is committed at the first attempt if it is allowed, with
      its ticket and under its manager's epochs; and otherwise nothing is written. */
  lemma {:induction false} UncontendedUpdate(actions: seq<Action>, id: nat, u: Update, now: nat, snapshot: bool)
    requires UpToDate(Run(actions), id) && DistinctPerLevel(ManagerOf(Run(actions), id).current.levels) && NoRepeats(u.remove)
    ensures var s := Run(actions); var m := ManagerOf(s, id); var t := Run(actions + [Submit(id, u), Attempt(id, now, snapshot)]);
            if Allowed(m, u) then
              var next := m.current.id + 1;
              && Apply(u, m.current, now).Ok?
              && t.store.Keys == s.store.Keys + {next} && (forall i :: i in s.store ==> t.store[i] == s.store[i])
              && t.store[next] == Apply(u, m.current, now).value.(isSnapshot := snapshot || m.current.isSnapshot)
              && t.commits == s.commits[next := Commit(id, m.writerEpoch, m.compactorEpoch, u, Some(s.nextTicket), now, snapshot)]
              && t.accepted == s.accepted + {s.nextTicket} && ManagerOf(t, id) == m.(current := t.store[next])
            else t.store == s.store && t.commits == s.commits && t.accepted == s.accepted
  {
    hide Run, Apply, ValidUpdate, EpochAllows, Allowed, L.DistinctIds, InputsPresent;
    var s := Run(actions);
    var m := ManagerOf(s, id);
    AllowedIff(m, u);
    Extend(actions, Submit(id, u));
    Extend(actions + [Submit(id, u)], Attempt(id, now, snapshot));
    assert actions + [Submit(id, u)] + [Attempt(id, now, snapshot)] == actions + [Submit(id, u), Attempt(id, now, snapshot)];
    if Allowed(m, u) {
      AllowedApplies(m, u, now);
      NextId(u, m.current, now);
    }
  }

  lemma AllowedApplies(m: Manager, u: Update, now: nat)
    requires Allowed(m, u) && DistinctPerLevel(m.current.levels) && NoRepeats(u.remove)
    ensures Apply(u, m.current, now).Ok?
  {
    ApplyHolds(u, m.current, now);
  }

  lemma NextId(u: Update, m: Manifest, now: nat)
    requires Apply(u, m, now).Ok?
    ensures Apply(u, m, now).value.id == m.id + 1 && Apply(u, m, now).value.isSnapshot == m.isSnapshot
  {
  }

  // --- Lost races ---

  /** A lost race writes nothing. The manager looks for the newest manifest and tries again, up to five
      attempts in all. */
  lemma {:induction false} LostRace(s: State, n: nat, id: nat, now: nat, snapshot: bool)
    requires Good(s, n) && ManagerOf(s, id).pc.Trying? && ManagerOf(s, id).current.id + 1 in s.store
    requires Apply(ManagerOf(s, id).pc.update, ManagerOf(s, id).current, now).Ok?
    ensures var Trying(u, ticket, attempt) := ManagerOf(s, id).pc; var t := Step(s, Attempt(id, now, snapshot));
            && t.store == s.store && t.commits == s.commits && t.accepted == s.accepted
            && ManagerOf(t, id).pc == (if attempt < 4 then Fetching(Retry(u, ticket, attempt + 1), n - 1) else Idle)
  {
    var m := ManagerOf(s, id);
    NextId(m.pc.update, m.current, now);
    assert s.store.Keys != {} && s.store != map[];
    assert n >= 1 && n - 1 in s.store;
    HighestIs(s.store.Keys, n - 1);
    hide Apply, Good;
  }

  /** After the refresh the update goes on exactly if its epoch is still not behind and the tables it
      removes are still there. */
  lemma {:induction false} RetryGoesOn(s: State, id: nat)
    requires ManagerOf(s, id).pc.Fetching? && ManagerOf(s, id).pc.goal.Retry? && ManagerOf(s, id).pc.id in s.store
    ensures var m := ManagerOf(s, id); var t := ManagerOf(Step(s, Fetch(id)), id); var Retry(u, ticket, attempt) := m.pc.goal;
            var newest := s.store[m.pc.id];
            && t.current == newest
            && (t.pc == Trying(u, ticket, attempt) <==>
                  && (u.trigger == ByFlush ==> newest.writerEpoch <= m.writerEpoch)
                  && (u.trigger == ByCompaction ==> newest.compactorEpoch <= m.compactorEpoch)
                  && forall i :: 0 <= i < |u.remove| ==> HasId(newest.levels, u.remove[i]))
            && (t.pc == Trying(u, ticket, attempt) || t.pc == Idle)
  {
    var m := ManagerOf(s, id);
    var u, newest := m.pc.goal.update, s.store[m.pc.id];
    forall i | 0 <= i < |u.remove|
      ensures HasId(newest.levels, u.remove[i]) <==> u.remove[i].0 < LEVELS && PositionOf(newest.levels[u.remove[i].0], u.remove[i].1).Some?
    {
      FoundIsThere(newest.levels, u.remove[i]);
    }
    hide HasId, PositionOf;
  }

  // --- Claims ---

  /** Between the two states the manager stored, on top of manifest `top`, the next epoch of the role and
      nothing else, and made it its own. */
  ghost predicate Claimed(s: State, t: State, id: nat, role: Role, top: nat) {
    && top in s.store && (forall i :: i in s.store ==> i <= top)
    && t.store.Keys == s.store.Keys + {top + 1} && top + 1 in t.commits && IsClaim(t.commits[top + 1], role)
    && var a, b := s.store[top], t.store[top + 1];
       && StoredEpoch(b, role) == StoredEpoch(a, role) + 1 == OwnEpoch(ManagerOf(t, id), role) == CommitEpoch(t.commits[top + 1], role)
       && b.levels == a.levels && b.lastFlushed == a.lastFlushed
       && StoredEpoch(b, Other(role)) == StoredEpoch(a, Other(role))
       && OwnEpoch(ManagerOf(t, id), Other(role)) == OwnEpoch(ManagerOf(s, id), Other(role))
  }

  /** An uncontended claim stores the next epoch of its role, leaves everything else as it was, and makes
      the epoch the manager's own. */
  lemma {:induction false} UncontendedClaim(actions: seq<Action>, id: nat, role: Role, now: nat)
    requires var m := ManagerOf(Run(actions), id); m.pc.Idle? || m.pc.Unloaded?
    requires Run(actions).store != map[]
    ensures var s := Run(actions); var t := Run(actions + [ListFor(id, ClaimGoal(role)), Fetch(id), Attempt(id, now, false)]);
            exists top :: Claimed(s, t, id, role, top)
  {
    hide Run, Good, Apply, Step, ClaimedOn;
    var s := Run(actions);
    var n := RunIsGood(actions);
    StoreIsContiguous(s, n);
    var top := n - 1;
    var list, fetch, attempt := ListFor(id, ClaimGoal(role)), Fetch(id), Attempt(id, now, false);
    Extend(actions, list);
    Extend(actions + [list], fetch);
    Extend(actions + [list] + [fetch], attempt);
    assert actions + [list] + [fetch] + [attempt] == actions + [list, fetch, attempt];
    LoadsForClaim(s, id, role, top);
    var s2 := Step(Step(s, list), fetch);
    ClaimStores(s2, id, role, now);
    ClaimHolds(s, s2, Step(s2, attempt), id, role, top);
    hide Claimed;
  }

  lemma ClaimHolds(s: State, s2: State, t: State, id: nat, role: Role, top: nat)
    requires top in s.store && (forall i :: i in s.store ==> i <= top) && s2.store == s.store && s.store[top].id == top
    requires ManagerOf(s2, id) == ManagerOf(s, id).(current := s.store[top], pc := ManagerOf(s2, id).pc)
    requires ClaimedOn(s2, t, id, role)
    ensures Claimed(s, t, id, role, top)
  {
  }

  /** The manager's claim went through on the manifest it holds. */
  ghost predicate ClaimedOn(s: State, t: State, id: nat, role: Role) {
    var a := ManagerOf(s, id).current;
    && t.store.Keys == s.store.Keys + {a.id + 1} && a.id + 1 in t.commits && IsClaim(t.commits[a.id + 1], role)
    && var b := t.store[a.id + 1];
       && StoredEpoch(b, role) == StoredEpoch(a, role) + 1 == OwnEpoch(ManagerOf(t, id), role) == CommitEpoch(t.commits[a.id + 1], role)
       && b.levels == a.levels && b.lastFlushed == a.lastFlushed
       && StoredEpoch(b, Other(role)) == StoredEpoch(a, Other(role))
       && OwnEpoch(ManagerOf(t, id), Other(role)) == OwnEpoch(ManagerOf(s, id), Other(role))
  }

  lemma LoadsForClaim(s: State, id: nat, role: Role, top: nat)
    requires var m := ManagerOf(s, id); m.pc.Idle? || m.pc.Unloaded?
    requires top in s.store && forall i :: i in s.store ==> i <= top
    ensures var t := Step(Step(s, ListFor(id, ClaimGoal(role))), Fetch(id));
            && t.store == s.store && t.commits == s.commits
            && ManagerOf(t, id) == ManagerOf(s, id).(current := s.store[top], pc := if role.Writer? then ClaimingWriter else ClaimingCompactor)
  {
    HighestIs(s.store.Keys, top);
    assert s.store != map[];
    var s1 := Step(s, ListFor(id, ClaimGoal(role)));
    assert ManagerOf(s1, id) == ManagerOf(s, id).(pc := Fetching(ClaimGoal(role), top)) && s1.store == s.store;
  }

  lemma ClaimStores(s: State, id: nat, role: Role, now: nat)
    requires var m := ManagerOf(s, id); m.pc == (if role.Writer? then ClaimingWriter else ClaimingCompactor) && m.current.id + 1 !in s.store
    ensures ClaimedOn(s, Step(s, Attempt(id, now, false)), id, role)
  {
    ClaimApplies(ManagerOf(s, id).current, role, now);
    hide Apply;
  }

  function Other(role: Role): Role {
    if role.Writer? then Compactor else Writer
  }

  lemma StoreIsContiguous(s: State, n: nat)
    requires Good(s, n) && s.store != map[]
    ensures n >= 1 && n - 1 in s.store && n !in s.store && s.store.Keys != {} && (forall i :: i in s.store ==> i <= n - 1)
    ensures s.store[n - 1].id == n - 1
  {
    hide TicketsOnce, TicketsFresh, ViewsStored, Follows;
    var i :| i in s.store;
  }

  lemma ClaimApplies(m: Manifest, role: Role, now: nat)
    ensures var u := ClaimUpdate(m, role.Writer?); var r := Apply(u, m, now);
            && r.Ok? && r.value.id == m.id + 1 && r.value.levels == m.levels && r.value.lastFlushed == m.lastFlushed
            && StoredEpoch(r.value, role) == StoredEpoch(m, role) + 1 == CarriedEpoch(u, role)
            && StoredEpoch(r.value, Other(role)) == StoredEpoch(m, Other(role)) && Belongs(u, role)
  {
  }
}
