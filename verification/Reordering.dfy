/** UpdateDatabase runs next to a Reload: a deadlock can be reached exactly when
    two ids stand in opposite orders in the old and in the new list. */
module Reordering {
  import opened Machines
  import opened Updates
  import Registries
  import opened Deadlocks

  /** The registry before the Reload: the checks `a` have flags and entries, no
      entry is locked, and every thread is about to start. */
  ghost predicate Initial(s: State, a: seq<Ref>, b: seq<Ref>) {
    && s.checks == a && s.load == Loading(b, 0, Clearing)
    && StoreSound(s) && (forall ref <- a :: ref in s.flags && ref.id in s.store)
    && AllFree(s) && AllStarting(s)
  }

  predicate AllFree(s: State) {
    forall e :: 0 <= e < |s.heap| ==> s.heap[e].owner == Nobody
  }

  predicate AllStarting(s: State) {
    forall th <- s.threads :: (th.pc.Starting? || th.pc.Ranging?) && th.list == [] && th.held == [] && th.at == 0
  }

  // ----- every run ranges over the old list or over a part of the new one -----

  predicate LoadedSoFar(s: State, a: seq<Ref>, b: seq<Ref>) {
    && s.load.list == b && s.load.at <= |b|
    && match s.load.pc
       case Clearing => s.checks == a && s.load.at == 0
       case Releasing(_) => s.load.at < |b| && s.checks == b[..s.load.at + 1]
       case _ => s.checks == b[..s.load.at]
  }

  ghost predicate FromLists(s: State, a: seq<Ref>, b: seq<Ref>) {
    LoadedSoFar(s, a, b) && forall t: nat :: t < |s.threads| ==> Along(s, a, t) || Along(s, b, t)
  }

  ghost predicate Inv(s: State, a: seq<Ref>, b: seq<Ref>) {
    Structured(s) && FlagsSet(s) && FromLists(s, a, b)
  }

  lemma InitialInv(s: State, a: seq<Ref>, b: seq<Ref>)
    requires Initial(s, a, b)
    ensures Inv(s, a, b)
  {
    forall t: nat | t < |s.threads|
      ensures Sound(s.heap, t, s.threads[t]) && Along(s, a, t)
    {
      assert s.threads[t] in s.threads;
    }
  }

  lemma RunFromLists(s: State, step: Step, a: seq<Ref>, b: seq<Ref>)
    requires FromLists(s, a, b) && !step.Load? && Next(s, step).Some?
    ensures FromLists(Next(s, step).value, a, b)
  {
    RunFrame(s, step);
    var s' := Next(s, step).value;
    forall t: nat | t < |s'.threads|
      ensures Along(s', a, t) || Along(s', b, t)
    {
      assert Along(s, a, t) || Along(s, b, t);
    }
  }

  lemma LoadAdvances(s: State, a: seq<Ref>, b: seq<Ref>)
    requires LoadedSoFar(s, a, b) && LoadNext(s).Some?
    ensures LoadedSoFar(LoadNext(s).value, a, b)
  {
  }

  lemma LoadKeepsThreads(s: State)
    requires LoadNext(s).Some?
    ensures LoadNext(s).value.threads == s.threads
  {
  }

  lemma LoadFromLists(s: State, a: seq<Ref>, b: seq<Ref>)
    requires FromLists(s, a, b) && LoadNext(s).Some?
    ensures FromLists(LoadNext(s).value, a, b)
  {
    LoadAdvances(s, a, b);
    LoadKeepsThreads(s);
    var s' := LoadNext(s).value;
    forall t: nat | t < |s'.threads|
      ensures Along(s', a, t) || Along(s', b, t)
    {
      assert Along(s, a, t) || Along(s, b, t);
    }
  }

  lemma StepInv(s: State, step: Step, a: seq<Ref>, b: seq<Ref>)
    requires Inv(s, a, b) && Next(s, step).Some?
    ensures Inv(Next(s, step).value, a, b)
  {
    StepStructured(s, step);
    StepKeepsFlagsSet(s, step);
    if step.Load? {
      LoadFromLists(s, a, b);
    } else {
      RunFromLists(s, step, a, b);
    }
  }

  lemma ReachesInv(s: State, s': State, a: seq<Ref>, b: seq<Ref>)
    requires Inv(s, a, b) && Reaches(Next, s, s')
    ensures Inv(s', a, b)
  {
    var inv := (s: State) => Inv(s, a, b);
    forall s: State, step: Step | inv(s) && Next(s, step).Some?
      ensures inv(Next(s, step).value)
    {
      StepInv(s, step, a, b);
    }
    var steps :| Run(Next, s, steps) == Some(s');
    RunKeeps(Next, inv, s, steps);
  }

  // ----- getting on -----

  predicate IsGetting(s: State, t: nat) {
    t < |s.threads| && s.threads[t].pc.Getting? && s.threads[t].at <= |s.threads[t].list|
  }

  /** The state after run `t` has locked entry `e` and set its flag. */
  function Acquired(s: State, t: nat, e: nat): State
    requires t < |s.threads| && s.threads[t].at < |s.threads[t].list|
    requires s.threads[t].list[s.threads[t].at] in s.flags && e < |s.heap|
  {
    var th := s.threads[t];
    s.(heap := s.heap[e := Entry(s.heap[e].id, s.flags[th.list[th.at]], Update(t))],
       threads := s.threads[t := th.(pc := Getting, at := th.at + 1, held := th.held + [e])])
  }

  function ReadAndWritten(s: State, t: nat, e: nat): State
    requires t < |s.threads| && s.threads[t].at < |s.threads[t].list|
    requires s.threads[t].list[s.threads[t].at] in s.flags && e < |s.heap|
  {
    var th := s.threads[t];
    With(s, t, th.(pc := Getting, at := th.at + 1))
      .(heap := s.heap[e := s.heap[e].(monitored := s.flags[th.list[th.at]])])
  }

  lemma ReachWritten(s: State, t: nat, e: nat)
    requires t < |s.threads| && s.threads[t].pc == Reading && s.threads[t].at < |s.threads[t].list|
    requires s.threads[t].list[s.threads[t].at] in s.flags
    requires e < |s.heap| && s.threads[t].held != [] && s.threads[t].held[|s.threads[t].held| - 1] == e
    ensures Reaches(Next, s, ReadAndWritten(s, t, e))
  {
    var th := s.threads[t];
    var s1 := With(s, t, th.(pc := Writing(s.flags[th.list[th.at]])));
    assert Next(s, Go(t)) == Some(s1);
    Reaches1(Next, s, Go(t));
    assert s1.threads[t := ReadAndWritten(s, t, e).threads[t]] == ReadAndWritten(s, t, e).threads;
    assert Next(s1, Go(t)) == Some(ReadAndWritten(s, t, e));
    Reaches1(Next, s1, Go(t));
    ReachesThen(Next, s, s1, ReadAndWritten(s, t, e));
  }

  lemma Locked(s: State, t: nat, e: nat)
    requires t < |s.threads| && s.threads[t].pc == Locking(e) && s.threads[t].at < |s.threads[t].list|
    requires s.threads[t].list[s.threads[t].at] in s.flags
    requires e < |s.heap| && s.heap[e].owner == Nobody
    ensures Reaches(Next, s, Acquired(s, t, e))
  {
    var s1 := Next(s, Go(t)).value;
    Reaches1(Next, s, Go(t));
    ReachWritten(s1, t, e);
    WrittenIsAcquired(s, s1, t, e);
    ReachesThen(Next, s, s1, Acquired(s, t, e));
  }

  lemma WrittenIsAcquired(s: State, s1: State, t: nat, e: nat)
    requires t < |s.threads| && s.threads[t].pc == Locking(e) && s.threads[t].at < |s.threads[t].list|
    requires s.threads[t].list[s.threads[t].at] in s.flags && e < |s.heap|
    requires GoNext(s, t, s.threads[t]) == Some(s1)
    ensures s1.threads[t].list == s.threads[t].list && s1.threads[t].at == s.threads[t].at && |s1.heap| == |s.heap|
    ensures s1.flags == s.flags && ReadAndWritten(s1, t, e) == Acquired(s, t, e)
  {
  }

  /** The state in which the entry of `id` exists. */
  function WithEntry(s: State, id: string): State {
    if id in s.store then s
    else s.(heap := s.heap + [Entry(id, true, Nobody)], store := s.store[id := |s.heap|])
  }

  lemma ReachLocking(s: State, t: nat)
    requires IsGetting(s, t) && At(s, t) < |s.threads[t].list|
    ensures
      var s' := WithEntry(s, s.threads[t].list[At(s, t)].id);
      Reaches(Next, s, With(s', t, s.threads[t].(pc := Locking(s'.store[s.threads[t].list[At(s, t)].id]))))
  {
    Reaches1(Next, s, Go(t));
    var id := s.threads[t].list[At(s, t)].id;
    if id !in s.store {
      var s1 := Next(s, Go(t)).value;
      Reaches1(Next, s1, Go(t));
      ReachesThen(Next, s, s1, Next(s1, Go(t)).value);
      var s' := WithEntry(s, id);
      assert Next(s1, Go(t)).value == With(s', t, s.threads[t].(pc := Locking(s'.store[id])));
    }
  }

  /** What climbing from position `from` to position `to` of its list changes. */
  ghost predicate Climbed(s: State, s': State, t: nat, from: nat, to: nat) {
    && |s.heap| <= |s'.heap|
    && (forall e :: 0 <= e < |s.heap| ==>
          s'.heap[e].owner == s.heap[e].owner || (s.heap[e].owner == Nobody && s'.heap[e].owner == Update(t)))
    && (forall id :: id in s.store ==> id in s'.store && s'.store[id] == s.store[id])
    && (forall id :: id in s'.store && id !in s.store ==> IsBetween(s, t, id, from, to))
    && t < |s.threads| == |s'.threads| && s'.threads == s.threads[t := s'.threads[t]]
    && s'.threads[t].list == s.threads[t].list
    && s'.flags == s.flags && s'.checks == s.checks && s'.load == s.load
  }

  ghost predicate IsBetween(s: State, t: nat, id: string, from: nat, to: nat) {
    t < |s.threads| && exists m :: from <= m < to && m < |s.threads[t].list| && s.threads[t].list[m].id == id
  }

  /** The entry of `id` is locked by run `t`. */
  predicate OwnedBy(s: State, id: string, t: nat) {
    id in s.store && s.store[id] < |s.heap| && s.heap[s.store[id]].owner == Update(t)
  }

  predicate OnlyOwners(s: State, t: nat, u: nat) {
    forall e :: 0 <= e < |s.heap| ==> s.heap[e].owner in {Nobody, Update(t), Update(u)}
  }

  lemma OwnedIsHeld(s: State, id: string, t: nat) returns (k: nat)
    requires Structured(s) && OwnedBy(s, id, t)
    ensures t < |s.threads| && k < |s.threads[t].held| && k < |s.threads[t].list|
    ensures s.threads[t].list[k].id == id && s.threads[t].held[k] == s.store[id]
  {
    assert OwnerKnows(s, s.store[id]);
    k :| 0 <= k < |s.threads[t].held| && s.threads[t].held[k] == s.store[id];
    assert Sound(s.heap, t, s.threads[t]);
    assert Holds(s.heap, t, s.threads[t], k);
  }

  lemma NotOwnedAhead(s: State, t: nat)
    requires Structured(s) && IsGetting(s, t) && At(s, t) < |s.threads[t].list| && UniqueIds(s.threads[t].list)
    ensures !OwnedBy(s, s.threads[t].list[At(s, t)].id, t)
  {
    assert Sound(s.heap, t, s.threads[t]);
    if OwnedBy(s, s.threads[t].list[At(s, t)].id, t) {
      var k := OwnedIsHeld(s, s.threads[t].list[At(s, t)].id, t);
    }
  }

  /** The state in which run `t` is about to lock the entry of its next check. */
  function AtLock(s: State, t: nat): State
    requires t < |s.threads| && At(s, t) < |s.threads[t].list|
  {
    var id := s.threads[t].list[At(s, t)].id;
    With(WithEntry(s, id), t, s.threads[t].(pc := Locking(WithEntry(s, id).store[id])))
  }

  lemma AcquiredClimbed(s: State, t: nat, u: nat, e: nat)
    requires StoreSound(s) && FlagsSet(s) && OnlyOwners(s, t, u)
    requires IsGetting(s, t) && At(s, t) < |s.threads[t].list|
    requires AtLock(s, t).threads[t].pc == Locking(e) && AtLock(s, t).heap[e].owner == Nobody
    requires s.threads[t].list[At(s, t)] in s.flags
    ensures
      var s' := Acquired(AtLock(s, t), t, e);
      && Climbed(s, s', t, At(s, t), At(s, t) + 1)
      && IsGetting(s', t) && At(s', t) == At(s, t) + 1 && OnlyOwners(s', t, u)
      && OwnedBy(s', s.threads[t].list[At(s, t)].id, t)
  {
    var id := s.threads[t].list[At(s, t)].id;
    assert id !in s.store ==> IsBetween(s, t, id, At(s, t), At(s, t) + 1);
  }

  /** One more entry, when no other run has it locked. */
  lemma ClimbOne(s: State, t: nat, u: nat) returns (s': State)
    requires Structured(s) && FlagsSet(s) && OnlyOwners(s, t, u)
    requires IsGetting(s, t) && At(s, t) < |s.threads[t].list| && UniqueIds(s.threads[t].list)
    requires !OwnedBy(s, s.threads[t].list[At(s, t)].id, u)
    ensures Reaches(Next, s, s') && Climbed(s, s', t, At(s, t), At(s, t) + 1)
    ensures IsGetting(s', t) && At(s', t) == At(s, t) + 1 && OnlyOwners(s', t, u)
    ensures OwnedBy(s', s.threads[t].list[At(s, t)].id, t)
  {
    NotOwnedAhead(s, t);
    assert s.threads[t] in s.threads;
    ReachLocking(s, t);
    var s1 := AtLock(s, t);
    var e := s1.threads[t].pc.e;
    Locked(s1, t, e);
    s' := Acquired(s1, t, e);
    AcquiredClimbed(s, t, u, e);
    ReachesThen(Next, s, s1, s');
  }

  lemma ClimbedThen(s: State, s1: State, s': State, t: nat, from: nat, mid: nat, to: nat)
    requires Climbed(s, s1, t, from, mid) && Climbed(s1, s', t, mid, to) && from <= mid <= to
    ensures Climbed(s, s', t, from, to)
  {
    forall id | id in s'.store && id !in s.store
      ensures IsBetween(s, t, id, from, to)
    {
      if id in s1.store {
        assert IsBetween(s, t, id, from, mid);
      } else {
        assert IsBetween(s1, t, id, mid, to);
      }
    }
  }

  /** Run `t` has locked the entries up to position `to`. */
  predicate ClimbedUpTo(s: State, t: nat, from: nat, to: nat) {
    && IsGetting(s, t) && At(s, t) == to
    && forall m :: from <= m < to ==> OwnedBy(s, s.threads[t].list[m].id, t)
  }

  /** Run `t` waits for an entry that run `u` had locked before the climb. */
  predicate BlockedBy(s: State, s': State, t: nat, u: nat, from: nat, to: nat) {
    && WaitsFor(s', t, u) && from <= At(s', t) < to && At(s', t) < |s'.threads[t].list|
    && OwnedBy(s, s'.threads[t].list[At(s', t)].id, u)
  }

  /** Run `t` can climb to position `to` unless it meets an entry locked by `u`. */
  lemma {:induction false} Climb(s: State, t: nat, u: nat, to: nat, a: seq<Ref>, b: seq<Ref>) returns (s': State)
    requires Inv(s, a, b) && OnlyOwners(s, t, u) && t != u
    requires IsGetting(s, t) && At(s, t) <= to <= |s.threads[t].list| && UniqueIds(s.threads[t].list)
    ensures Reaches(Next, s, s') && Climbed(s, s', t, At(s, t), to) && Inv(s', a, b) && OnlyOwners(s', t, u)
    ensures ClimbedUpTo(s', t, At(s, t), to) || BlockedBy(s, s', t, u, At(s, t), to)
    decreases if At(s, t) <= to then to - At(s, t) else 0
  {
    var at := At(s, t);
    if at == to {
      s' := s;
      assert Run(Next, s, []) == Some(s);
    } else if OwnedBy(s, s.threads[t].list[at].id, u) {
      ReachLocking(s, t);
      s' := AtLock(s, t);
      ReachesInv(s, s', a, b);
    } else {
      var s1 := ClimbOne(s, t, u);
      ReachesInv(s, s1, a, b);
      s' := Climb(s1, t, u, to, a, b);
      ReachesThen(Next, s, s1, s');
      ClimbedThen(s, s1, s', t, at, at + 1, to);
      ClimbResult(s, s1, s', t, u, to);
    }
  }

  lemma ClimbResult(s: State, s1: State, s': State, t: nat, u: nat, to: nat)
    requires IsGetting(s, t) && At(s, t) < to <= |s.threads[t].list| && UniqueIds(s.threads[t].list)
    requires t != u && StoreSound(s)
    requires Climbed(s, s1, t, At(s, t), At(s, t) + 1) && OwnedBy(s1, s.threads[t].list[At(s, t)].id, t)
    requires Climbed(s1, s', t, At(s, t) + 1, to)
    requires ClimbedUpTo(s', t, At(s, t) + 1, to) || BlockedBy(s1, s', t, u, At(s, t) + 1, to)
    ensures ClimbedUpTo(s', t, At(s, t), to) || BlockedBy(s, s', t, u, At(s, t), to)
  {
    if BlockedBy(s1, s', t, u, At(s, t) + 1, to) {
      var id := s'.threads[t].list[At(s', t)].id;
      assert !IsBetween(s, t, id, At(s, t), At(s, t) + 1);
    }
  }

  lemma OwnedPersists(s: State, s': State, t: nat, from: nat, to: nat, id: string, owner: nat)
    requires Climbed(s, s', t, from, to) && OwnedBy(s, id, owner)
    ensures OwnedBy(s', id, owner)
  {
  }

  // ----- the Reload, and a run over the cleared list -----

  predicate LoadOwnsAll(s: State) {
    forall e :: 0 <= e < |s.heap| ==> s.heap[e].owner == Nobody || s.heap[e].owner == Reload
  }

  function LoadRank(pc: LoadPc): nat {
    match pc
    case Clearing => 6
    case Finding => 5
    case Creating => 4
    case Acquiring(_, _) => 3
    case Copying(_, _) => 2
    case Appending(_) => 1
    case Releasing(_) => 0
  }

  lemma LoadMoves(s: State)
    requires Structured(s) && FlagsSet(s) && LoadOwnsAll(s) && s.load.at < |s.load.list| && !s.load.pc.Clearing?
    ensures LoadNext(s).Some? && LoadOwnsAll(LoadNext(s).value) && LoadNext(s).value.threads == s.threads
    ensures !LoadNext(s).value.load.pc.Clearing?
    ensures
      var l, l' := s.load, LoadNext(s).value.load;
      l'.at == l.at + 1 || (l'.at == l.at && LoadRank(l'.pc) < LoadRank(l.pc))
  {
    if s.load.pc.Acquiring? {
      assert OwnerKnows(s, s.load.pc.e);
    }
  }

  lemma {:induction false} LoadAll(s: State, a: seq<Ref>, b: seq<Ref>) returns (s': State)
    requires Inv(s, a, b) && LoadOwnsAll(s) && !s.load.pc.Clearing?
    ensures Reaches(Next, s, s') && Inv(s', a, b) && AllFree(s') && s'.threads == s.threads
    ensures s'.checks == b && s'.load.pc.Finding? && s'.load.at == |b|
    decreases |b| - s.load.at, LoadRank(s.load.pc)
  {
    if s.load.at == |b| {
      s' := s;
      assert Run(Next, s, []) == Some(s);
      forall e | 0 <= e < |s.heap|
        ensures s.heap[e].owner == Nobody
      {
        assert OwnerKnows(s, e);
      }
    } else {
      LoadMoves(s);
      var s1 := LoadNext(s).value;
      Reaches1(Next, s, Load);
      StepInv(s, Load, a, b);
      s' := LoadAll(s1, a, b);
      ReachesThen(Next, s, s1, s');
    }
  }

  /** The state after run `t` has deleted `keys` and has still to visit `rest`. */
  function Deleted(s: State, t: nat, keys: set<string>, rest: set<string>): State
    requires t < |s.threads|
  {
    With(s, t, s.threads[t].(pc := Deleting(rest))).(store := s.store - keys)
  }

  lemma DeletedThen(s: State, t: nat, keys: set<string>, key: string)
    requires t < |s.threads| && key in keys
    ensures Deleted(Deleted(s, t, {key}, keys - {key}), t, keys - {key}, {}) == Deleted(s, t, keys, {})
  {
    assert (s.store - {key}) - (keys - {key}) == s.store - keys;
  }

  /** A run over the cleared list deletes every entry of its key snapshot. */
  lemma {:induction false} DeleteAll(s: State, t: nat, keys: set<string>)
    requires t < |s.threads| && s.threads[t].pc == Deleting(keys) && s.threads[t].list == []
    ensures Reaches(Next, s, Deleted(s, t, keys, {}))
    decreases |keys|
  {
    if keys == {} {
      assert s == Deleted(s, t, {}, {});
      assert Run(Next, s, []) == Some(s);
    } else {
      var key :| key in keys;
      var s1 := Deleted(s, t, {key}, keys - {key});
      assert Next(s, Visit(t, key)) == Some(s1);
      Reaches1(Next, s, Visit(t, key));
      DeleteAll(s1, t, keys - {key});
      DeletedThen(s, t, keys, key);
      ReachesThen(Next, s, s1, Deleted(s, t, keys, {}));
    }
  }

  // ----- necessity: opposed ids can deadlock -----

  /** A registry of the checks `a`, with one entry each. */
  ghost function Registered(a: seq<Ref>, b: seq<Ref>, threads: seq<Thread>): State
    requires UniqueIds(a)
  {
    State(seq(|a|, m requires 0 <= m < |a| => Entry(a[m].id, true, Nobody)),
          map m | 0 <= m < |a| :: a[m].id := m,
          a, map ref | ref in a :: true, Registries.Missing, false, threads, Loading(b, 0, Clearing))
  }

  function Fresh(id: string): Thread {
    Thread(id, true, [], 0, Starting, [])
  }

  lemma RegisteredIsInitial(a: seq<Ref>, b: seq<Ref>, threads: seq<Thread>)
    requires UniqueIds(a)
    requires forall th <- threads :: th == Fresh(th.id).(pc := th.pc) && Begins(th.pc)
    ensures Initial(Registered(a, b, threads), a, b)
  {
    var s := Registered(a, b, threads);
    forall ref <- a
      ensures ref.id in s.store
    {
      var m :| 0 <= m < |a| && a[m] == ref;
      assert a[m].id in s.store;
    }
  }

  /** A thread with a registered id gets as far as ranging over the checks. */
  lemma ReachRanging(s: State, t: nat, a: seq<Ref>, b: seq<Ref>) returns (s': State)
    requires Inv(s, a, b) && t < |s.threads| && s.checks != [] && s.threads[t] == Fresh(s.checks[0].id)
    ensures Reaches(Next, s, s') && Inv(s', a, b)
    ensures s' == With(s, t, s.threads[t].(pc := Ranging)).(flags := s'.flags)
  {
    s' := Next(s, Go(t)).value;
    Reaches1(Next, s, Go(t));
    StepInv(s, Go(t), a, b);
  }

  lemma ReachGetting(s: State, t: nat, a: seq<Ref>, b: seq<Ref>) returns (s': State)
    requires Inv(s, a, b) && t < |s.threads| && s.threads[t].pc == Ranging
    ensures Reaches(Next, s, s') && Inv(s', a, b)
    ensures s' == With(s, t, s.threads[t].(list := s.checks, at := 0, pc := Getting))
  {
    s' := Next(s, Go(t)).value;
    Reaches1(Next, s, Go(t));
    StepInv(s, Go(t), a, b);
  }

  /** Run 0 ranges over `a`, run 1 over the cleared list, and run 2 over `b`. */
  predicate Lined(s: State, a: seq<Ref>, b: seq<Ref>) {
    && |s.threads| == 3
    && s.threads[0].list == a && s.threads[0].pc == Getting && s.threads[0].at == 0
    && s.threads[1].list == [] && s.threads[1].pc == Listing
    && s.threads[2].list == b && s.threads[2].pc == Getting && s.threads[2].at == 0
  }

  lemma ReachRanged(s: State, t: nat, a: seq<Ref>, b: seq<Ref>) returns (s': State)
    requires Inv(s, a, b) && t < |s.threads| && s.checks != [] && s.threads[t] == Fresh(s.checks[0].id)
    ensures Reaches(Next, s, s') && Inv(s', a, b)
    ensures s' == With(s, t, s.threads[t].(list := s.checks, pc := Getting)).(flags := s'.flags)
  {
    var s1 := ReachRanging(s, t, a, b);
    s' := ReachGetting(s1, t, a, b);
    ReachesThen(Next, s, s1, s');
  }

  /** A command in `a`, a periodic update about to range, and a later command. */
  function Opening(a: seq<Ref>, later: string): seq<Thread>
    requires a != []
  {
    [Fresh(a[0].id), Fresh("").(pc := Ranging), Fresh(later)]
  }

  lemma OpeningIsInitial(a: seq<Ref>, b: seq<Ref>, later: string)
    requires UniqueIds(a) && a != []
    ensures
      var s := Registered(a, b, Opening(a, later));
      Initial(s, a, b) && Inv(s, a, b) && AllFree(s)
  {
    RegisteredIsInitial(a, b, Opening(a, later));
    InitialInv(Registered(a, b, Opening(a, later)), a, b);
  }

  lemma Prelude0(a: seq<Ref>, b: seq<Ref>, later: string) returns (s: State, s': State)
    requires UniqueIds(a) && a != []
    ensures Initial(s, a, b) && Reaches(Next, s, s') && Inv(s', a, b) && AllFree(s') && s'.load.pc.Clearing?
    ensures s'.threads == Opening(a, later)[0 := Fresh(a[0].id).(list := a, pc := Getting)]
  {
    OpeningIsInitial(a, b, later);
    s := Registered(a, b, Opening(a, later));
    s' := ReachRanged(s, 0, a, b);
  }

  lemma Prelude(a: seq<Ref>, b: seq<Ref>) returns (s: State, s': State)
    requires UniqueIds(a) && UniqueIds(b) && a != [] && b != []
    ensures Initial(s, a, b) && Reaches(Next, s, s') && Inv(s', a, b) && AllFree(s') && Lined(s', a, b)
  {
    var s1;
    s, s1 := Prelude0(a, b, b[0].id);
    var s2 := ReachCleared(s1, a, b);
    s' := ReachRanged(s2, 2, a, b);
    ReachesThen(Next, s, s1, s2);
    ReachesThen(Next, s, s2, s');
  }

  /** Run 1 ranges over the list that the Reload has cleared; then it is loaded. */
  lemma ReachCleared(s: State, a: seq<Ref>, b: seq<Ref>) returns (s': State)
    requires Inv(s, a, b) && AllFree(s) && s.load.pc.Clearing? && |s.threads| > 1 && s.threads[1].pc == Ranging
    ensures Reaches(Next, s, s') && Inv(s', a, b) && AllFree(s') && s'.checks == b
    ensures s'.threads == s.threads[1 := s.threads[1].(list := [], at := 0, pc := Listing)]
  {
    var s1 := Next(s, Load).value;
    Reaches1(Next, s, Load);
    StepInv(s, Load, a, b);
    var s2 := ReachGetting(s1, 1, a, b);
    ReachesThen(Next, s, s1, s2);
    var s3 := Next(s2, Go(1)).value;
    Reaches1(Next, s2, Go(1));
    StepInv(s2, Go(1), a, b);
    ReachesThen(Next, s, s2, s3);
    s' := LoadAll(s3, a, b);
    ReachesThen(Next, s, s3, s');
  }

  /** Run 1 deletes all entries from the store. */
  lemma ReachEmptied(s: State, t: nat, a: seq<Ref>, b: seq<Ref>) returns (s': State)
    requires Inv(s, a, b) && t < |s.threads| && s.threads[t].pc == Listing && s.threads[t].list == []
    ensures Reaches(Next, s, s') && Inv(s', a, b)
    ensures s' == With(s, t, s.threads[t].(pc := Deleting({}))).(store := map[])
  {
    var s1 := Next(s, Go(t)).value;
    Reaches1(Next, s, Go(t));
    DeleteAll(s1, t, s.store.Keys);
    s' := Deleted(s1, t, s.store.Keys, {});
    assert s1.store - s.store.Keys == map[];
    ReachesThen(Next, s, s1, s');
    ReachesInv(s, s', a, b);
  }

  lemma LocksUpTo(s: State, a: seq<Ref>, b: seq<Ref>, i: nat) returns (s': State)
    requires Inv(s, a, b) && AllFree(s) && Lined(s, a, b) && UniqueIds(a) && i < |a|
    ensures Reaches(Next, s, s') && Inv(s', a, b) && OnlyOwners(s', 0, 2)
    ensures |s'.threads| == 3 && s'.threads[1..] == s.threads[1..] && s'.threads[0].list == a
    ensures IsGetting(s', 0) && At(s', 0) == i
  {
    s' := Climb(s, 0, 2, i, a, b);
  }

  /** Run 0 locks the entries before `x`, run 1 deletes them all from the store,
      and run 0 locks a new entry for `x`, the only one now in the store. */
  lemma OnlyX(s: State, a: seq<Ref>, b: seq<Ref>, i: nat) returns (s': State)
    requires Inv(s, a, b) && AllFree(s) && Lined(s, a, b) && UniqueIds(a) && i < |a|
    ensures Reaches(Next, s, s') && Inv(s', a, b) && OnlyOwners(s', 0, 2)
    ensures |s'.threads| == 3 && s'.threads[2] == s.threads[2] && s'.threads[0].list == a
    ensures IsGetting(s', 0) && At(s', 0) == i + 1 && OwnedBy(s', a[i].id, 0) && s'.store.Keys == {a[i].id}
  {
    var s1 := LocksUpTo(s, a, b, i);
    assert s1.threads[1] == s1.threads[1..][0] && s1.threads[2] == s1.threads[1..][1];
    var s2 := ReachEmptied(s1, 1, a, b);
    s' := LocksX(s2, a, b, i);
    ReachesThen(Next, s, s1, s2);
    ReachesThen(Next, s, s2, s');
  }

  lemma LocksX(s: State, a: seq<Ref>, b: seq<Ref>, i: nat) returns (s': State)
    requires Inv(s, a, b) && OnlyOwners(s, 0, 2) && s.store == map[] && |s.threads| == 3
    requires IsGetting(s, 0) && At(s, 0) == i && s.threads[0].list == a && UniqueIds(a) && i < |a|
    ensures Reaches(Next, s, s') && Inv(s', a, b) && OnlyOwners(s', 0, 2)
    ensures |s'.threads| == 3 && s'.threads[2] == s.threads[2] && s'.threads[0].list == a
    ensures IsGetting(s', 0) && At(s', 0) == i + 1 && OwnedBy(s', a[i].id, 0) && s'.store.Keys == {a[i].id}
  {
    s' := Climb(s, 0, 2, i + 1, a, b);
    forall id | id in s'.store
      ensures id == a[i].id
    {
      assert IsBetween(s, 0, id, i, i + 1);
    }
    assert OwnedBy(s', s'.threads[0].list[i].id, 0);
  }

  /** Run 2 locks the entries up to `y`. */
  lemma LocksY(s: State, a: seq<Ref>, b: seq<Ref>, x: string, k: nat) returns (s': State)
    requires Inv(s, a, b) && OnlyOwners(s, 0, 2) && |s.threads| == 3 && s.store.Keys == {x} && OwnedBy(s, x, 0)
    requires IsGetting(s, 2) && At(s, 2) == 0 && s.threads[2].list == b && UniqueIds(b) && k < |b|
    requires forall m :: 0 <= m <= k ==> b[m].id != x
    ensures Reaches(Next, s, s') && Inv(s', a, b) && OnlyOwners(s', 0, 2)
    ensures |s'.threads| == 3 && s'.threads[0] == s.threads[0] && s'.threads[2].list == b
    ensures IsGetting(s', 2) && At(s', 2) == k + 1 && OwnedBy(s', b[k].id, 2) && OwnedBy(s', x, 0)
  {
    s' := Climb(s, 2, 0, k + 1, a, b);
    assert OwnedBy(s', s'.threads[2].list[k].id, 2);
  }

  /** Run `t` climbs until it waits for an entry of run `u`, at the latest for that
      of `id`. */
  lemma ClimbToWait(s: State, t: nat, u: nat, to: nat, a: seq<Ref>, b: seq<Ref>) returns (s': State)
    requires Inv(s, a, b) && OnlyOwners(s, t, u) && t != u
    requires IsGetting(s, t) && At(s, t) <= to < |s.threads[t].list| && UniqueIds(s.threads[t].list)
    requires OwnedBy(s, s.threads[t].list[to].id, u)
    ensures Reaches(Next, s, s') && Inv(s', a, b) && OnlyOwners(s', t, u)
    ensures Climbed(s, s', t, At(s, t), to + 1) && WaitsFor(s', t, u)
  {
    s' := Climb(s, t, u, to + 1, a, b);
    OwnedPersists(s, s', t, At(s, t), to + 1, s.threads[t].list[to].id, u);
    assert !ClimbedUpTo(s', t, At(s, t), to + 1) by {
      assert !OwnedBy(s', s'.threads[t].list[to].id, t);
    }
  }

  /** Run 0 has climbed up to where it waits for run 2; run 2 is still as it was. */
  lemma FirstWaits(s: State, a: seq<Ref>, b: seq<Ref>, j: nat, x: string) returns (s': State)
    requires Inv(s, a, b) && OnlyOwners(s, 0, 2) && |s.threads| == 3 && UniqueIds(a)
    requires IsGetting(s, 0) && s.threads[0].list == a && At(s, 0) <= j < |a| && OwnedBy(s, a[j].id, 2)
    requires OwnedBy(s, x, 0)
    ensures Reaches(Next, s, s') && Inv(s', a, b) && OnlyOwners(s', 2, 0) && WaitsFor(s', 0, 2)
    ensures |s'.threads| == 3 && s'.threads[2] == s.threads[2] && OwnedBy(s', x, 0)
  {
    s' := ClimbToWait(s, 0, 2, j, a, b);
    OwnedPersists(s, s', 0, At(s, 0), j + 1, x, 0);
  }

  lemma WaitEachOther(s: State, a: seq<Ref>, b: seq<Ref>, j: nat, l: nat) returns (s': State)
    requires Inv(s, a, b) && OnlyOwners(s, 0, 2) && |s.threads| == 3 && UniqueIds(a) && UniqueIds(b)
    requires IsGetting(s, 0) && s.threads[0].list == a && At(s, 0) <= j < |a| && OwnedBy(s, a[j].id, 2)
    requires IsGetting(s, 2) && s.threads[2].list == b && At(s, 2) <= l < |b| && OwnedBy(s, b[l].id, 0)
    ensures Reaches(Next, s, s') && Deadlock(s', {0, 2})
  {
    var s1 := FirstWaits(s, a, b, j, b[l].id);
    s' := ClimbToWait(s1, 2, 0, l, a, b);
    ReachesThen(Next, s, s1, s');
    WaitPersists(s1, s', 2, 0, 2, At(s1, 2), l + 1);
    TwoDeadlocked(s', 0, 2);
  }

  lemma WaitPersists(s: State, s': State, t: nat, u: nat, v: nat, from: nat, to: nat)
    requires Climbed(s, s', t, from, to) && u != t && WaitsFor(s, u, v)
    ensures WaitsFor(s', u, v)
  {
  }

  lemma TwoDeadlocked(s: State, t: nat, u: nat)
    requires WaitsFor(s, t, u) && WaitsFor(s, u, t)
    ensures Deadlock(s, {t, u})
  {
    assert WaitsWithin(s, t, {t, u}) && WaitsWithin(s, u, {t, u});
  }

  lemma OpposedDeadlocks(a: seq<Ref>, b: seq<Ref>, i: nat, j: nat, k: nat, l: nat) returns (s: State, s': State)
    requires UniqueIds(a) && UniqueIds(b) && OpposedAt(a, b, i, j, k, l)
    ensures Initial(s, a, b) && Reaches(Next, s, s') && Deadlock(s', {0, 2})
  {
    var s1;
    s, s1 := Prelude(a, b);
    var s2 := OnlyX(s1, a, b, i);
    var s3 := LocksY(s2, a, b, a[i].id, k);
    s' := WaitEachOther(s3, a, b, j, l);
    ReachesThen(Next, s, s1, s2);
    ReachesThen(Next, s, s2, s3);
    ReachesThen(Next, s, s3, s');
  }

  /** Runs can deadlock next to the Reload that replaces `a` by `b`. */
  ghost predicate MayDeadlock(a: seq<Ref>, b: seq<Ref>) {
    exists s, s', d :: Initial(s, a, b) && Reaches(Next, s, s') && Deadlock(s', d)
  }

  /** Any number of updates next to one Reload can deadlock exactly when the old
      and the new list have two ids in opposite orders. */
  lemma DeadlockIffOpposed(a: seq<Ref>, b: seq<Ref>)
    requires UniqueIds(a) && UniqueIds(b)
    ensures MayDeadlock(a, b) <==> Opposed(a, b)
  {
    if Opposed(a, b) {
      var i: nat, j: nat, k: nat, l: nat :| OpposedAt(a, b, i, j, k, l);
      var s, s' := OpposedDeadlocks(a, b, i, j, k, l);
    } else {
      forall s, s', d | Initial(s, a, b) && Reaches(Next, s, s')
        ensures !Deadlock(s', d)
      {
        InitialInv(s, a, b);
        ReachesInv(s, s', a, b);
        NoDeadlock(s', d, a, b);
      }
    }
  }
}
