/** Updates over a fixed list of checks with unique ids whose entries exist: they
    run one after the other from the first lock on, cannot deadlock, and all
    finish within a bounded number of steps. */
module Serialised {
  import opened Machines
  import opened Products
  import opened Registries
  import opened Updates
  import opened Deadlocks

  /** Nothing is locked, every run is about to start, and no Reload is under way. */
  ghost predicate Start(s: State, list: seq<Ref>) {
    && s.checks == list && list != [] && UniqueIds(list)
    && s.load.at == |s.load.list| && s.load.pc == Finding
    && (forall ref <- list :: ref in s.flags && ref.id in s.store)
    && StoreSound(s)
    && (forall e :: 0 <= e < |s.heap| ==> s.heap[e].owner == Nobody)
    && (forall th <- s.threads :: (th.pc.Starting? || th.pc.Ranging?) && th.list == [] && th.held == [] && th.at == 0)
  }

  predicate AllDone(s: State) {
    forall th <- s.threads :: th.pc.Done?
  }

  // ----- every run locks the same entries in the same order -----

  predicate InStore(s: State, list: seq<Ref>) {
    forall k :: 0 <= k < |list| ==> list[k].id in s.store
  }

  predicate RangesOver(s: State, list: seq<Ref>, th: Thread)
    requires InStore(s, list)
  {
    && th.pc != Adding
    && (th.list == list || (th.list == [] && (th.pc.Starting? || th.pc.Ranging? || th.pc.Done?)))
    && (th.list == list && th.pc.Locking? && th.at < |list| ==> th.pc.e == s.store[list[th.at].id])
    && forall k :: 0 <= k < |th.held| && k < |list| ==> th.held[k] == s.store[list[k].id]
  }

  ghost predicate Inv(s: State, list: seq<Ref>) {
    && Structured(s) && FlagsSet(s)
    && s.checks == list && list != [] && UniqueIds(list)
    && s.load.at == |s.load.list| && s.load.pc == Finding
    && InStore(s, list)
    && forall t :: 0 <= t < |s.threads| ==> RangesOver(s, list, s.threads[t])
  }

  lemma StartInv(s: State, list: seq<Ref>)
    requires Start(s, list)
    ensures Inv(s, list)
  {
    forall t: nat | t < |s.threads|
      ensures Sound(s.heap, t, s.threads[t]) && RangesOver(s, list, s.threads[t])
    {
      assert s.threads[t] in s.threads;
    }
    forall k | 0 <= k < |list|
      ensures list[k].id in s.store
    {
      assert list[k] in list;
    }
  }

  /** The step of a run keeps the entries of the list where they are. */
  predicate KeepsEntries(s: State, s': State, list: seq<Ref>)
    requires InStore(s, list)
  {
    forall k :: 0 <= k < |list| ==> list[k].id in s'.store && s'.store[list[k].id] == s.store[list[k].id]
  }

  lemma GettingRanges(s: State, s': State, t: nat, list: seq<Ref>)
    requires t < |s.threads| && s.threads[t].pc.Getting?
    requires InStore(s, list) && RangesOver(s, list, s.threads[t]) && AtPoint(s.heap, s.threads[t])
    requires Framed(s, s', t) && GoNext(s, t, s.threads[t]) == Some(s')
    ensures s'.store == s.store && RangesOver(s', list, s'.threads[t])
  {
  }

  lemma LockingRanges(s: State, s': State, t: nat, list: seq<Ref>)
    requires t < |s.threads| && s.threads[t].pc.Locking?
    requires InStore(s, list) && RangesOver(s, list, s.threads[t]) && AtPoint(s.heap, s.threads[t])
    requires Framed(s, s', t) && GoNext(s, t, s.threads[t]) == Some(s')
    ensures s'.store == s.store && RangesOver(s', list, s'.threads[t])
  {
  }

  lemma SettingRanges(s: State, s': State, t: nat, list: seq<Ref>)
    requires t < |s.threads| && (s.threads[t].pc.Reading? || s.threads[t].pc.Writing?)
    requires InStore(s, list) && RangesOver(s, list, s.threads[t]) && AtPoint(s.heap, s.threads[t])
    requires Framed(s, s', t) && GoNext(s, t, s.threads[t]) == Some(s')
    ensures s'.store == s.store && RangesOver(s', list, s'.threads[t])
  {
  }

  lemma LoopRanges(s: State, s': State, t: nat, list: seq<Ref>)
    requires t < |s.threads| && InLoop(s.threads[t].pc)
    requires InStore(s, list) && RangesOver(s, list, s.threads[t]) && AtPoint(s.heap, s.threads[t])
    requires Framed(s, s', t) && GoNext(s, t, s.threads[t]) == Some(s')
    ensures s'.store == s.store && RangesOver(s', list, s'.threads[t])
  {
    if s.threads[t].pc.Getting? {
      GettingRanges(s, s', t, list);
    } else if s.threads[t].pc.Locking? {
      LockingRanges(s, s', t, list);
    } else {
      SettingRanges(s, s', t, list);
    }
  }

  lemma BeginRanges(s: State, s': State, t: nat, list: seq<Ref>)
    requires t < |s.threads| && AtPoint(s.heap, s.threads[t]) && InStore(s, list) && RangesOver(s, list, s.threads[t])
    requires s.threads[t].pc.Starting? || s.threads[t].pc.Ranging?
    requires s.checks == list && Begin(s, t, s.threads[t]) == s'
    ensures s'.store == s.store && |s'.threads| == |s.threads| && RangesOver(s', list, s'.threads[t])
  {
  }

  lemma SyncRanges(s: State, s': State, t: nat, list: seq<Ref>)
    requires t < |s.threads| && (Sweeps(s.threads[t].pc) || Serializes(s.threads[t].pc))
    requires InStore(s, list) && RangesOver(s, list, s.threads[t]) && AtPoint(s.heap, s.threads[t])
    requires Framed(s, s', t) && GoNext(s, t, s.threads[t]) == Some(s')
    ensures s'.store == s.store && RangesOver(s', list, s'.threads[t])
  {
  }

  lemma UnlockingRanges(s: State, s': State, t: nat, list: seq<Ref>)
    requires t < |s.threads| && s.threads[t].pc.Unlocking?
    requires InStore(s, list) && RangesOver(s, list, s.threads[t]) && AtPoint(s.heap, s.threads[t])
    requires Framed(s, s', t) && GoNext(s, t, s.threads[t]) == Some(s')
    ensures s'.store == s.store && RangesOver(s', list, s'.threads[t])
  {
    assert s'.threads[t].held <= s.threads[t].held;
  }

  lemma VisitRanges(s: State, s': State, t: nat, key: string, list: seq<Ref>)
    requires t < |s.threads| && AtPoint(s.heap, s.threads[t]) && InStore(s, list) && RangesOver(s, list, s.threads[t])
    requires Framed(s, s', t) && VisitNext(s, t, s.threads[t], key) == Some(s')
    ensures KeepsEntries(s, s', list) && RangesOver(s', list, s'.threads[t])
  {
    assert forall k :: 0 <= k < |list| ==> Lists(list, list[k].id);
  }

  lemma StepRanges(s: State, s': State, step: Step, list: seq<Ref>)
    requires Inv(s, list) && !step.Load? && Next(s, step) == Some(s') && Framed(s, s', step.t)
    ensures KeepsEntries(s, s', list) && RangesOver(s', list, s'.threads[step.t])
  {
    assert Sound(s.heap, step.t, s.threads[step.t]) && RangesOver(s, list, s.threads[step.t]);
    match step
    case Go(t) =>
      if InLoop(s.threads[t].pc) {
        LoopRanges(s, s', t, list);
      } else if s.threads[t].pc.Starting? || s.threads[t].pc.Ranging? {
        BeginRanges(s, s', t, list);
      } else if s.threads[t].pc.Unlocking? {
        UnlockingRanges(s, s', t, list);
      } else {
        SyncRanges(s, s', t, list);
      }
    case Visit(t, key) => VisitRanges(s, s', t, key, list);
    case Fail(t, _) =>
  }

  lemma StepInv(s: State, step: Step, list: seq<Ref>)
    requires Inv(s, list) && Next(s, step).Some?
    ensures !step.Load? && Inv(Next(s, step).value, list)
  {
    StepStructured(s, step);
    StepKeepsFlagsSet(s, step);
    RunFrame(s, step);
    var s' := Next(s, step).value;
    StepRanges(s, s', step, list);
    forall t | 0 <= t < |s'.threads|
      ensures RangesOver(s', list, s'.threads[t])
    {
      assert RangesOver(s, list, s.threads[t]);
    }
  }

  lemma ReachableInv(s0: State, steps: seq<Step>, list: seq<Ref>)
    requires Start(s0, list) && Run(Next, s0, steps).Some?
    ensures Inv(Run(Next, s0, steps).value, list)
  {
    StartInv(s0, list);
    var inv := (s: State) => Inv(s, list);
    forall s: State, step: Step | inv(s) && Next(s, step).Some?
      ensures inv(Next(s, step).value)
    {
      StepInv(s, step, list);
    }
    RunKeeps(Next, inv, s0, steps);
  }

  // ----- serialisation -----

  lemma HoldersAreOne(s: State, list: seq<Ref>, t: nat, u: nat)
    requires Inv(s, list) && t < |s.threads| && u < |s.threads|
    requires s.threads[t].held != [] && s.threads[u].held != []
    ensures t == u
  {
    assert Sound(s.heap, t, s.threads[t]) && Sound(s.heap, u, s.threads[u]);
    assert RangesOver(s, list, s.threads[t]) && RangesOver(s, list, s.threads[u]);
    assert Holds(s.heap, t, s.threads[t], 0) && Holds(s.heap, u, s.threads[u], 0);
  }

  /** What run `t` holds are the entries of a first part of the list, in order. */
  ghost predicate HoldsInOrder(s: State, list: seq<Ref>, t: nat) {
    && t < |s.threads|
    && |s.threads[t].held| <= |list|
    && (forall k :: 0 <= k < |s.threads[t].held| ==>
          list[k].id in s.store && s.threads[t].held[k] == s.store[list[k].id])
    && (forall j, k :: 0 <= j < k < |s.threads[t].held| ==> s.threads[t].held[j] != s.threads[t].held[k])
  }

  lemma HeldInOrder(s: State, list: seq<Ref>, t: nat)
    requires Inv(s, list) && t < |s.threads|
    ensures HoldsInOrder(s, list, t)
  {
    var held := s.threads[t].held;
    assert Sound(s.heap, t, s.threads[t]) && RangesOver(s, list, s.threads[t]);
    if held != [] {
      assert Holds(s.heap, t, s.threads[t], |held| - 1);
    }
  }

  /** Only one run at a time holds locks: from its first lock to its last unlock a
      run is alone, and what it holds are the entries of a first part of the list,
      in list order and without repetition. */
  lemma RunsAreSerial(s0: State, steps: seq<Step>, list: seq<Ref>, t: nat, u: nat)
    requires Start(s0, list) && Run(Next, s0, steps).Some?
    requires t < |s0.threads| && u < |s0.threads|
    ensures
      var s := Run(Next, s0, steps).value;
      && HoldsInOrder(s, list, t) && HoldsInOrder(s, list, u)
      && (s.threads[t].held != [] && s.threads[u].held != [] ==> t == u)
  {
    ReachableInv(s0, steps, list);
    SameThreads(s0, steps, list);
    var s := Run(Next, s0, steps).value;
    HeldInOrder(s, list, t);
    HeldInOrder(s, list, u);
    if s.threads[t].held != [] && s.threads[u].held != [] {
      HoldersAreOne(s, list, t, u);
    }
  }

  lemma SameThreads(s0: State, steps: seq<Step>, list: seq<Ref>)
    requires Start(s0, list) && Run(Next, s0, steps).Some?
    ensures |Run(Next, s0, steps).value.threads| == |s0.threads|
  {
    StartInv(s0, list);
    var inv := (s: State) => Inv(s, list) && |s.threads| == |s0.threads|;
    forall s: State, step: Step | inv(s) && Next(s, step).Some?
      ensures inv(Next(s, step).value)
    {
      StepInv(s, step, list);
      RunFrame(s, step);
    }
    RunKeeps(Next, inv, s0, steps);
  }

  // ----- deadlock freedom and termination -----

  lemma InvNotDeadlocked(s: State, list: seq<Ref>, d: set<nat>)
    requires Inv(s, list)
    ensures !Deadlock(s, d)
  {
    forall t: nat | t < |s.threads|
      ensures Along(s, list, t)
    {
      assert RangesOver(s, list, s.threads[t]);
    }
    NoDeadlock(s, d, list, list);
  }

  /** No set of runs ever waits for itself; in particular no run waits for a lock
      that it holds. */
  lemma NeverDeadlocked(s0: State, steps: seq<Step>, list: seq<Ref>, d: set<nat>)
    requires Start(s0, list) && Run(Next, s0, steps).Some?
    ensures !Deadlock(Run(Next, s0, steps).value, d)
  {
    ReachableInv(s0, steps, list);
    InvNotDeadlocked(Run(Next, s0, steps).value, list, d);
  }

  lemma UnfinishedRunSteps(s: State, list: seq<Ref>)
    requires Inv(s, list) && !AllDone(s)
    ensures exists step :: Next(s, step).Some?
  {
    var th :| th in s.threads && !th.pc.Done?;
    var t: nat :| t < |s.threads| && s.threads[t] == th;
    assert t in Unfinished(s);
    InvNotDeadlocked(s, list, Unfinished(s));
    SomeRunSteps(s);
    var u :| u in Unfinished(s) && CanStep(s, u);
    if !Next(s, Go(u)).Some? {
      var key :| Next(s, Visit(u, key)).Some?;
    }
  }

  /** The steps a run still has to do over a list of `n` checks, with at most `size`
      entries in the store. */
  function Cost(th: Thread, n: nat, size: nat): nat {
    var loop := if th.at <= n then 4 * (n - th.at) else 0;
    match th.pc
    case Starting => 4 * n + 2 * size + n + 8
    case Ranging => 4 * n + 2 * size + n + 7
    case Getting => loop + 2 * size + n + 6
    case Adding => 0
    case Locking(_) => loop + 2 * size + n + 5
    case Reading => loop + 2 * size + n + 4
    case Writing(_) => loop + 2 * size + n + 3
    case Listing => 2 * size + n + 5
    case Deleting(keys) => |keys| + size + n + 4
    case Opening => size + n + 3
    case Encoding(rest, _) => |rest| + n + 2
    case Unlocking => |th.held| + 1
    case Done => 0
  }

  lemma GettingCosts(s: State, s': State, t: nat, list: seq<Ref>, size: nat)
    requires t < |s.threads| && s.threads[t].pc.Getting?
    requires InStore(s, list) && RangesOver(s, list, s.threads[t]) && AtPoint(s.heap, s.threads[t])
    requires Framed(s, s', t) && GoNext(s, t, s.threads[t]) == Some(s')
    ensures s'.store == s.store && Cost(s'.threads[t], |list|, size) < Cost(s.threads[t], |list|, size)
  {
  }

  lemma LockingCosts(s: State, s': State, t: nat, list: seq<Ref>, size: nat)
    requires t < |s.threads| && s.threads[t].pc.Locking?
    requires InStore(s, list) && RangesOver(s, list, s.threads[t]) && AtPoint(s.heap, s.threads[t])
    requires Framed(s, s', t) && GoNext(s, t, s.threads[t]) == Some(s')
    ensures s'.store == s.store && Cost(s'.threads[t], |list|, size) < Cost(s.threads[t], |list|, size)
  {
  }

  lemma SettingCosts(s: State, s': State, t: nat, list: seq<Ref>, size: nat)
    requires t < |s.threads| && (s.threads[t].pc.Reading? || s.threads[t].pc.Writing?)
    requires InStore(s, list) && RangesOver(s, list, s.threads[t]) && AtPoint(s.heap, s.threads[t])
    requires Framed(s, s', t) && GoNext(s, t, s.threads[t]) == Some(s')
    ensures s'.store == s.store && Cost(s'.threads[t], |list|, size) < Cost(s.threads[t], |list|, size)
  {
  }

  lemma LoopCosts(s: State, s': State, t: nat, list: seq<Ref>, size: nat)
    requires t < |s.threads| && InLoop(s.threads[t].pc)
    requires InStore(s, list) && RangesOver(s, list, s.threads[t]) && AtPoint(s.heap, s.threads[t])
    requires Framed(s, s', t) && GoNext(s, t, s.threads[t]) == Some(s')
    ensures s'.store == s.store && Cost(s'.threads[t], |list|, size) < Cost(s.threads[t], |list|, size)
  {
    if s.threads[t].pc.Getting? {
      GettingCosts(s, s', t, list, size);
    } else if s.threads[t].pc.Locking? {
      LockingCosts(s, s', t, list, size);
    } else {
      SettingCosts(s, s', t, list, size);
    }
  }

  lemma BeginCosts(s: State, s': State, t: nat, list: seq<Ref>, size: nat)
    requires t < |s.threads| && (s.threads[t].pc.Starting? || s.threads[t].pc.Ranging?)
    requires Begin(s, t, s.threads[t]) == s' && |s'.threads| == |s.threads|
    ensures s'.store == s.store && Cost(s'.threads[t], |list|, size) < Cost(s.threads[t], |list|, size)
  {
  }

  lemma SweepCosts(s: State, s': State, t: nat, list: seq<Ref>, size: nat)
    requires t < |s.threads| && Sweeps(s.threads[t].pc) && |s.store| <= size
    requires InStore(s, list) && RangesOver(s, list, s.threads[t]) && AtPoint(s.heap, s.threads[t])
    requires Framed(s, s', t) && GoNext(s, t, s.threads[t]) == Some(s')
    ensures s'.store == s.store && Cost(s'.threads[t], |list|, size) < Cost(s.threads[t], |list|, size)
  {
    assert |s.store.Keys| == |s.store|;
  }

  lemma SerializeCosts(s: State, s': State, t: nat, list: seq<Ref>, size: nat)
    requires t < |s.threads| && Serializes(s.threads[t].pc) && |s.store| <= size
    requires InStore(s, list) && RangesOver(s, list, s.threads[t]) && AtPoint(s.heap, s.threads[t])
    requires Framed(s, s', t) && GoNext(s, t, s.threads[t]) == Some(s')
    ensures s'.store == s.store && Cost(s'.threads[t], |list|, size) < Cost(s.threads[t], |list|, size)
  {
    assert |s.store.Keys| == |s.store|;
  }

  lemma UnlockingCosts(s: State, s': State, t: nat, list: seq<Ref>, size: nat)
    requires t < |s.threads| && s.threads[t].pc.Unlocking?
    requires InStore(s, list) && RangesOver(s, list, s.threads[t]) && AtPoint(s.heap, s.threads[t])
    requires Framed(s, s', t) && GoNext(s, t, s.threads[t]) == Some(s')
    ensures s'.store == s.store && Cost(s'.threads[t], |list|, size) < Cost(s.threads[t], |list|, size)
  {
  }

  lemma StoreShrinks(store: map<string, nat>, key: string)
    ensures |store - {key}| <= |store|
  {
    assert (store - {key}).Keys <= store.Keys;
    SubsetSize((store - {key}).Keys, store.Keys);
  }

  lemma {:induction false} SubsetSize(a: set<string>, b: set<string>)
    requires a <= b
    ensures |a| <= |b|
  {
    if a != {} {
      var x :| x in a;
      SubsetSize(a - {x}, b - {x});
    }
  }

  lemma DeleteCosts(s: State, s': State, t: nat, key: string, n: nat, size: nat)
    requires t < |s.threads| && s.threads[t].pc.Deleting?
    requires VisitNext(s, t, s.threads[t], key) == Some(s') && Framed(s, s', t)
    ensures |s'.store| <= |s.store| && Cost(s'.threads[t], n, size) < Cost(s.threads[t], n, size)
  {
    StoreShrinks(s.store, key);
    assert |s.threads[t].pc.keys - {key}| == |s.threads[t].pc.keys| - 1;
  }

  lemma EncodeCosts(s: State, s': State, t: nat, key: string, n: nat, size: nat)
    requires t < |s.threads| && s.threads[t].pc.Encoding?
    requires VisitNext(s, t, s.threads[t], key) == Some(s') && Framed(s, s', t)
    ensures s'.store == s.store && Cost(s'.threads[t], n, size) < Cost(s.threads[t], n, size)
  {
    assert |s.threads[t].pc.rest - {key}| == |s.threads[t].pc.rest| - 1;
  }

  lemma FailCosts(s: State, s': State, t: nat, left: StateFile, list: seq<Ref>, size: nat)
    requires t < |s.threads| && FailNext(s, t, s.threads[t], left) == Some(s') && Framed(s, s', t)
    requires AtPoint(s.heap, s.threads[t]) && InStore(s, list) && RangesOver(s, list, s.threads[t])
    ensures s'.store == s.store && Cost(s'.threads[t], |list|, size) < Cost(s.threads[t], |list|, size)
  {
  }

  lemma StepCosts(s: State, s': State, step: Step, list: seq<Ref>, size: nat)
    requires Inv(s, list) && !step.Load? && Next(s, step) == Some(s') && |s.store| <= size && Framed(s, s', step.t)
    ensures |s'.store| <= size && Cost(s'.threads[step.t], |list|, size) < Cost(s.threads[step.t], |list|, size)
  {
    var t := step.t;
    assert Sound(s.heap, t, s.threads[t]) && RangesOver(s, list, s.threads[t]);
    match step
    case Go(_) =>
      if InLoop(s.threads[t].pc) {
        LoopCosts(s, s', t, list, size);
      } else if s.threads[t].pc.Starting? || s.threads[t].pc.Ranging? {
        BeginCosts(s, s', t, list, size);
      } else if Sweeps(s.threads[t].pc) {
        SweepCosts(s, s', t, list, size);
      } else if Serializes(s.threads[t].pc) {
        SerializeCosts(s, s', t, list, size);
      } else {
        UnlockingCosts(s, s', t, list, size);
      }
    case Visit(_, key) =>
      if s.threads[t].pc.Deleting? {
        DeleteCosts(s, s', t, key, |list|, size);
      } else {
        EncodeCosts(s, s', t, key, |list|, size);
      }
    case Fail(_, left) => FailCosts(s, s', t, left, list, size);
  }

  function TotalCost(threads: seq<Thread>, n: nat, size: nat): nat {
    if threads == [] then 0 else Cost(threads[0], n, size) + TotalCost(threads[1..], n, size)
  }

  lemma {:induction false} TotalOfUpdate(threads: seq<Thread>, t: nat, th: Thread, n: nat, size: nat)
    requires t < |threads|
    ensures TotalCost(threads[t := th], n, size) + Cost(threads[t], n, size)
         == TotalCost(threads, n, size) + Cost(th, n, size)
    decreases |threads|
  {
    if t > 0 {
      TotalOfUpdate(threads[1..], t - 1, th, n, size);
      assert threads[t := th][1..] == threads[1..][t - 1 := th];
    } else {
      assert threads[t := th][1..] == threads[1..];
    }
  }

  lemma {:induction false} TotalAtMost(threads: seq<Thread>, n: nat, size: nat, each: nat)
    requires forall th <- threads :: Cost(th, n, size) <= each
    ensures TotalCost(threads, n, size) <= each * |threads|
  {
    if threads != [] {
      TotalAtMost(threads[1..], n, size, each);
      Product(each, |threads| - 1);
    }
  }

  lemma {:induction false} StepsAndCost(s: State, steps: seq<Step>, list: seq<Ref>, size: nat)
    requires Inv(s, list) && |s.store| <= size && Run(Next, s, steps).Some?
    ensures |steps| + TotalCost(Run(Next, s, steps).value.threads, |list|, size) <= TotalCost(s.threads, |list|, size)
    decreases |steps|
  {
    if steps != [] {
      StepInv(s, steps[0], list);
      RunFrame(s, steps[0]);
      var s', t := Next(s, steps[0]).value, steps[0].t;
      StepCosts(s, s', steps[0], list, size);
      TotalOfUpdate(s.threads, t, s'.threads[t], |list|, size);
      StepsAndCost(s', steps[1..], list, size);
    }
  }

  /** Whatever the scheduler does, no run of the system is longer than this. */
  lemma RunsAreBounded(s0: State, steps: seq<Step>, list: seq<Ref>)
    requires Start(s0, list) && Run(Next, s0, steps).Some?
    ensures |steps| <= (5 * |list| + 2 * |s0.store| + 8) * |s0.threads|
  {
    StartInv(s0, list);
    StepsAndCost(s0, steps, list, |s0.store|);
    TotalAtMost(s0.threads, |list|, |s0.store|, 5 * |list| + 2 * |s0.store| + 8);
  }

  /** A run of the system that cannot go on has finished every update: with the
      bound on its length, every update returns. */
  lemma EveryUpdateReturns(s0: State, steps: seq<Step>, list: seq<Ref>)
    requires Start(s0, list) && Run(Next, s0, steps).Some?
    ensures
      var s := Run(Next, s0, steps).value;
      AllDone(s) || exists step :: Next(s, step).Some?
  {
    ReachableInv(s0, steps, list);
    var s := Run(Next, s0, steps).value;
    if !AllDone(s) {
      UnfinishedRunSteps(s, list);
    }
  }
}
