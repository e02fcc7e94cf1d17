/** What becomes of the monitored flags when updates run next to a Reload: an
    update that ranges over the cleared list deletes entries that the Reload has
    still to read. */
module Restoring {
  import opened Machines
  import opened Registries
  import opened Updates
  import opened Deadlocks
  import opened Reordering

  /** The flags of the entries. */
  function SavedFlags(s: State): map<string, bool>
    requires StoreSound(s)
  {
    map id | id in s.store :: s.heap[s.store[id]].monitored
  }

  predicate ListsAll(list: seq<Ref>, ids: set<string>) {
    (forall ref <- list :: ref.id in ids) && forall id <- ids :: Lists(list, id)
  }

  /** The registry right after an update, and any number of plain updates: the
      entries are the registered checks `a`, each with the flag of its check. */
  ghost predicate Synced(s: State, a: seq<Ref>, b: seq<Ref>) {
    && Initial(s, a, b) && ListsAll(a, s.store.Keys)
    && (forall ref <- a :: ref in s.flags && ref.id in s.store && s.flags[ref] == SavedFlags(s)[ref.id])
    && forall th <- s.threads :: th.pc.Ranging?
  }

  predicate LoadOver(s: State) {
    s.load.pc.Finding? && s.load.at == |s.load.list|
  }

  /** Every check of the new list has the flag it had, or monitored if it is new. */
  predicate Restored(s: State, b: seq<Ref>, saved: map<string, bool>) {
    forall ref <- b :: ref in s.flags && s.flags[ref] == Lookup(saved, ref.id)
  }

  /** Whatever the updates do, the Reload of `b` restores the flags. */
  ghost predicate ReloadRestores(s0: State, b: seq<Ref>)
    requires StoreSound(s0)
  {
    forall s :: Reaches(Next, s0, s) && LoadOver(s) ==> Restored(s, b, SavedFlags(s0))
  }

  // ----- the flags that are kept -----

  predicate FlagKept(s: State, b: seq<Ref>, saved: map<string, bool>, ref: Ref) {
    Lists(b, ref.id) ==> ref in s.flags && s.flags[ref] == Lookup(saved, ref.id)
  }

  predicate StoreKept(s: State, b: seq<Ref>, saved: map<string, bool>) {
    forall id <- s.store :: Lists(b, id) ==>
      s.store[id] < |s.heap| && s.heap[s.store[id]].monitored == Lookup(saved, id)
  }

  predicate EntryKept(s: State, b: seq<Ref>, saved: map<string, bool>, e: nat, created: bool) {
    && s.load.at < |b| && e < |s.heap| && b[s.load.at] in s.flags && s.flags[b[s.load.at]]
    && s.heap[e].id == b[s.load.at].id && s.heap[e].monitored == Lookup(saved, b[s.load.at].id)
    && (created ==> Lookup(saved, b[s.load.at].id))
  }

  predicate LoadKept(s: State, b: seq<Ref>, saved: map<string, bool>) {
    match s.load.pc
    case Creating =>
      && s.load.at < |b| && Lookup(saved, b[s.load.at].id)
      && b[s.load.at] in s.flags && s.flags[b[s.load.at]]
    case Acquiring(e, created) => EntryKept(s, b, saved, e, created)
    case Copying(e, created) => EntryKept(s, b, saved, e, created)
    case Appending(_) => s.load.at < |b| && FlagKept(s, b, saved, b[s.load.at])
    case _ => true
  }

  predicate RunKept(s: State, b: seq<Ref>, saved: map<string, bool>, th: Thread) {
    && !th.pc.Starting?
    && (forall ref <- th.list :: FlagKept(s, b, saved, ref))
    && (th.pc.Writing? ==>
          th.at < |th.list| && (Lists(b, th.list[th.at].id) ==> th.pc.flag == Lookup(saved, th.list[th.at].id)))
  }

  /** The updates can do no harm: all flags in question are set, or there are no
      updates and no entry has been deleted. */
  predicate Harmless(s: State, b: seq<Ref>, saved: map<string, bool>) {
    || (forall ref <- b :: Lookup(saved, ref.id))
    || (s.threads == [] && saved.Keys <= s.store.Keys)
  }

  ghost predicate Kept(s: State, a: seq<Ref>, b: seq<Ref>, saved: map<string, bool>) {
    && Reordering.Inv(s, a, b) && Harmless(s, b, saved)
    && StoreKept(s, b, saved) && LoadKept(s, b, saved)
    && (forall ref <- s.checks :: FlagKept(s, b, saved, ref))
    && forall t: nat :: t < |s.threads| ==> RunKept(s, b, saved, s.threads[t])
  }

  lemma ListedFlag(b: seq<Ref>, saved: map<string, bool>, id: string)
    requires (forall ref <- b :: Lookup(saved, ref.id)) && Lists(b, id)
    ensures Lookup(saved, id)
  {
    var i :| 0 <= i < |b| && b[i].id == id;
    assert b[i] in b;
  }

  // ----- steps of the updates -----

  /** A step that changes no flag of an entry and adds no entry to the store. */
  predicate KeepsEntryFlags(s: State, s': State) {
    && |s.heap| <= |s'.heap|
    && (forall e :: 0 <= e < |s.heap| ==>
          s'.heap[e].id == s.heap[e].id && s'.heap[e].monitored == s.heap[e].monitored)
    && forall id <- s'.store :: id in s.store && s'.store[id] == s.store[id]
  }

  predicate ChangesEntries(pc: Pc) {
    pc.Adding? || pc.Writing?
  }

  lemma LoopKeepsFlags(s: State, s': State, t: nat)
    requires t < |s.threads| && InLoop(s.threads[t].pc) && GoNext(s, t, s.threads[t]) == Some(s')
    requires !ChangesEntries(s.threads[t].pc)
    ensures KeepsEntryFlags(s, s')
  {
  }

  lemma BeginKeepsFlags(s: State, s': State, t: nat)
    requires t < |s.threads| && Begins(s.threads[t].pc) && GoNext(s, t, s.threads[t]) == Some(s')
    ensures KeepsEntryFlags(s, s')
  {
  }

  lemma SyncKeepsFlags(s: State, s': State, t: nat)
    requires t < |s.threads| && (Sweeps(s.threads[t].pc) || Serializes(s.threads[t].pc))
    requires GoNext(s, t, s.threads[t]) == Some(s')
    ensures KeepsEntryFlags(s, s')
  {
  }

  lemma UnlockingKeepsFlags(s: State, s': State, t: nat)
    requires t < |s.threads| && s.threads[t].pc.Unlocking? && GoNext(s, t, s.threads[t]) == Some(s')
    ensures KeepsEntryFlags(s, s')
  {
  }

  lemma OtherGoKeepsFlags(s: State, s': State, t: nat)
    requires t < |s.threads| && !ChangesEntries(s.threads[t].pc) && GoNext(s, t, s.threads[t]) == Some(s')
    ensures KeepsEntryFlags(s, s')
  {
    var pc := s.threads[t].pc;
    if InLoop(pc) {
      LoopKeepsFlags(s, s', t);
    } else if Begins(pc) {
      BeginKeepsFlags(s, s', t);
    } else if pc.Unlocking? {
      UnlockingKeepsFlags(s, s', t);
    } else {
      SyncKeepsFlags(s, s', t);
    }
  }

  lemma OtherStepKeepsFlags(s: State, s': State, step: Step)
    requires !step.Load? && Next(s, step) == Some(s') && Framed(s, s', step.t)
    requires !ChangesEntries(s.threads[step.t].pc)
    ensures KeepsEntryFlags(s, s')
  {
    if step.Go? {
      OtherGoKeepsFlags(s, s', step.t);
    }
  }

  lemma KeptByOther(s: State, s': State, b: seq<Ref>, saved: map<string, bool>)
    requires KeepsEntryFlags(s, s') && s'.load == s.load && s'.flags == s.flags
    requires StoreKept(s, b, saved) && LoadKept(s, b, saved)
    ensures StoreKept(s', b, saved) && LoadKept(s', b, saved)
  {
  }

  lemma KeptByAdding(s: State, s': State, t: nat, b: seq<Ref>, saved: map<string, bool>)
    requires t < |s.threads| && s.threads[t].pc.Adding? && GoNext(s, t, s.threads[t]) == Some(s')
    requires forall ref <- b :: Lookup(saved, ref.id)
    requires StoreKept(s, b, saved) && LoadKept(s, b, saved)
    ensures StoreKept(s', b, saved) && LoadKept(s', b, saved)
  {
    var id := s.threads[t].list[s.threads[t].at].id;
    if Lists(b, id) {
      ListedFlag(b, saved, id);
    }
  }

  lemma KeptByWriting(s: State, s': State, t: nat, b: seq<Ref>, saved: map<string, bool>)
    requires t < |s.threads| && s.threads[t].pc.Writing? && GoNext(s, t, s.threads[t]) == Some(s')
    requires StoreSound(s) && Sound(s.heap, t, s.threads[t]) && RunKept(s, b, saved, s.threads[t])
    requires StoreKept(s, b, saved) && LoadKept(s, b, saved)
    ensures StoreKept(s', b, saved) && LoadKept(s', b, saved)
  {
    var th := s.threads[t];
    assert Holds(s.heap, t, th, |th.held| - 1);
    if s.load.pc.Acquiring? || s.load.pc.Copying? {
      assert Lists(b, b[s.load.at].id);
    }
  }

  lemma LoopReadingWrites(s: State, s': State, t: nat)
    requires t < |s.threads| && InLoop(s.threads[t].pc) && GoNext(s, t, s.threads[t]) == Some(s') && Framed(s, s', t)
    ensures !s'.threads[t].pc.Starting?
    ensures s'.threads[t].pc.Writing? ==>
      var th := s.threads[t];
      th.at < |th.list| && th.list[th.at] in s.flags
      && s'.threads[t] == th.(pc := Writing(s.flags[th.list[th.at]]))
  {
  }

  /** Only a step that has read a flag is about to write one. */
  lemma OnlyReadingWrites(s: State, s': State, t: nat)
    requires t < |s.threads| && GoNext(s, t, s.threads[t]) == Some(s') && Framed(s, s', t)
    ensures !s'.threads[t].pc.Starting?
    ensures s'.threads[t].pc.Writing? ==>
      var th := s.threads[t];
      th.at < |th.list| && th.list[th.at] in s.flags
      && s'.threads[t] == th.(pc := Writing(s.flags[th.list[th.at]]))
  {
    if InLoop(s.threads[t].pc) {
      LoopReadingWrites(s, s', t);
    } else if Begins(s.threads[t].pc) {
      BeginGoesOn(s, s', t);
    } else {
      BegunGoesOn(s, s', t);
    }
  }

  lemma OwnGoKept(s: State, s': State, t: nat, b: seq<Ref>, saved: map<string, bool>)
    requires t < |s.threads| && GoNext(s, t, s.threads[t]) == Some(s') && Framed(s, s', t)
    requires RunKept(s, b, saved, s.threads[t]) && forall ref <- s.checks :: FlagKept(s, b, saved, ref)
    ensures RunKept(s', b, saved, s'.threads[t])
  {
    OnlyReadingWrites(s, s', t);
    var th, th' := s.threads[t], s'.threads[t];
    assert forall ref <- th'.list :: FlagKept(s, b, saved, ref) && FlagKept(s', b, saved, ref);
    if th'.pc.Writing? {
      assert th.list[th.at] in th'.list;
    }
  }

  lemma EntriesKept(s: State, s': State, step: Step, b: seq<Ref>, saved: map<string, bool>)
    requires Structured(s) && !step.Load? && Next(s, step) == Some(s') && Framed(s, s', step.t)
    requires RunKept(s, b, saved, s.threads[step.t]) && Harmless(s, b, saved)
    requires StoreKept(s, b, saved) && LoadKept(s, b, saved)
    ensures StoreKept(s', b, saved) && LoadKept(s', b, saved)
  {
    var t := step.t;
    assert Sound(s.heap, t, s.threads[t]);
    if !ChangesEntries(s.threads[t].pc) {
      OtherStepKeepsFlags(s, s', step);
      KeptByOther(s, s', b, saved);
    } else if s.threads[t].pc.Adding? {
      KeptByAdding(s, s', t, b, saved);
    } else {
      KeptByWriting(s, s', t, b, saved);
    }
  }

  lemma OwnStepKept(s: State, s': State, step: Step, b: seq<Ref>, saved: map<string, bool>)
    requires !step.Load? && Next(s, step) == Some(s') && Framed(s, s', step.t)
    requires RunKept(s, b, saved, s.threads[step.t]) && forall ref <- s.checks :: FlagKept(s, b, saved, ref)
    ensures RunKept(s', b, saved, s'.threads[step.t])
  {
    if step.Go? {
      OwnGoKept(s, s', step.t, b, saved);
    }
  }

  lemma RunsKept(s: State, s': State, step: Step, b: seq<Ref>, saved: map<string, bool>)
    requires !step.Load? && Next(s, step) == Some(s') && Framed(s, s', step.t)
    requires forall ref <- s.checks :: FlagKept(s, b, saved, ref)
    requires forall t: nat :: t < |s.threads| ==> RunKept(s, b, saved, s.threads[t])
    ensures forall t: nat :: t < |s'.threads| ==> RunKept(s', b, saved, s'.threads[t])
  {
    assert RunKept(s, b, saved, s.threads[step.t]);
    OwnStepKept(s, s', step, b, saved);
    forall u: nat | u < |s'.threads| && u != step.t
      ensures RunKept(s', b, saved, s'.threads[u])
    {
      OtherKept(s, s', b, saved, u);
    }
  }

  lemma OtherKept(s: State, s': State, b: seq<Ref>, saved: map<string, bool>, u: nat)
    requires u < |s.threads| == |s'.threads| && s'.threads[u] == s.threads[u]
    requires !s.threads[u].pc.Starting? && RunKept(s, b, saved, s.threads[u])
    requires forall ref :: FlagKept(s, b, saved, ref) ==> FlagKept(s', b, saved, ref)
    ensures RunKept(s', b, saved, s'.threads[u])
  {
  }

  lemma RunStepKept(s: State, step: Step, a: seq<Ref>, b: seq<Ref>, saved: map<string, bool>)
    requires Kept(s, a, b, saved) && !step.Load? && Next(s, step).Some?
    ensures Kept(Next(s, step).value, a, b, saved)
  {
    Reordering.StepInv(s, step, a, b);
    RunFrame(s, step);
    var s', t := Next(s, step).value, step.t;
    assert RunKept(s, b, saved, s.threads[t]);
    EntriesKept(s, s', step, b, saved);
    RunsKept(s, s', step, b, saved);
    assert forall ref <- s'.checks :: FlagKept(s, b, saved, ref) && FlagKept(s', b, saved, ref);
  }

  // ----- steps of the Reload -----

  /** The list is loaded one new check after another. */
  lemma NotYetLoaded(s: State, a: seq<Ref>, b: seq<Ref>)
    requires LoadedSoFar(s, a, b) && UniqueIds(b) && s.load.pc.Finding? && s.load.at < |b|
    ensures b[s.load.at] !in s.checks
  {
  }

  lemma FindingKept(s: State, a: seq<Ref>, b: seq<Ref>, saved: map<string, bool>)
    requires Kept(s, a, b, saved) && UniqueIds(b) && s.load.pc.Finding? && LoadNext(s).Some?
    ensures Kept(LoadNext(s).value, a, b, saved)
  {
    Reordering.StepInv(s, Load, a, b);
    NotYetLoaded(s, a, b);
    var s', ref := LoadNext(s).value, b[s.load.at];
    assert Lists(b, ref.id);
    forall r: Ref | FlagKept(s, b, saved, r) && (r != ref || Lookup(saved, ref.id))
      ensures FlagKept(s', b, saved, r)
    {
    }
    forall u: nat | u < |s'.threads|
      ensures RunKept(s', b, saved, s'.threads[u])
    {
      assert RunKept(s, b, saved, s.threads[u]);
      assert ref in b && Lookup(saved, ref.id);
    }
  }

  lemma CreatingKept(s: State, b: seq<Ref>, saved: map<string, bool>)
    requires s.load.pc.Creating?
    requires StoreSound(s) && s.load.list == b && LoadNext(s).Some?
    requires StoreKept(s, b, saved) && LoadKept(s, b, saved)
    ensures StoreKept(LoadNext(s).value, b, saved) && LoadKept(LoadNext(s).value, b, saved)
  {
  }

  lemma AcquiringKept(s: State, b: seq<Ref>, saved: map<string, bool>)
    requires s.load.pc.Acquiring?
    requires StoreSound(s) && s.load.list == b && LoadNext(s).Some?
    requires StoreKept(s, b, saved) && LoadKept(s, b, saved)
    ensures StoreKept(LoadNext(s).value, b, saved) && LoadKept(LoadNext(s).value, b, saved)
  {
  }

  lemma CopyingKept(s: State, b: seq<Ref>, saved: map<string, bool>)
    requires s.load.pc.Copying?
    requires StoreSound(s) && s.load.list == b && LoadNext(s).Some?
    requires StoreKept(s, b, saved) && LoadKept(s, b, saved)
    ensures StoreKept(LoadNext(s).value, b, saved) && LoadKept(LoadNext(s).value, b, saved)
  {
  }

  lemma LoadEntriesKept(s: State, b: seq<Ref>, saved: map<string, bool>)
    requires !s.load.pc.Finding?
    requires StoreSound(s) && s.load.list == b && LoadNext(s).Some?
    requires StoreKept(s, b, saved) && LoadKept(s, b, saved)
    ensures StoreKept(LoadNext(s).value, b, saved) && LoadKept(LoadNext(s).value, b, saved)
  {
    if s.load.pc.Creating? {
      CreatingKept(s, b, saved);
    } else if s.load.pc.Acquiring? {
      AcquiringKept(s, b, saved);
    } else if s.load.pc.Copying? {
      CopyingKept(s, b, saved);
    }
  }

  lemma LoadFlagsKept(s: State, b: seq<Ref>, saved: map<string, bool>, ref: Ref)
    requires s.load.list == b && !s.load.pc.Finding? && LoadNext(s).Some?
    requires LoadKept(s, b, saved) && FlagKept(s, b, saved, ref)
    ensures FlagKept(LoadNext(s).value, b, saved, ref)
  {
  }

  lemma LoadChecksKept(s: State, b: seq<Ref>, saved: map<string, bool>)
    requires s.load.list == b && !s.load.pc.Finding? && LoadNext(s).Some? && LoadKept(s, b, saved)
    requires forall ref <- s.checks :: FlagKept(s, b, saved, ref)
    ensures forall ref <- LoadNext(s).value.checks :: FlagKept(LoadNext(s).value, b, saved, ref)
  {
    var s' := LoadNext(s).value;
    forall ref <- s'.checks
      ensures FlagKept(s', b, saved, ref)
    {
      LoadFlagsKept(s, b, saved, ref);
    }
  }

  lemma LoadRunsKept(s: State, b: seq<Ref>, saved: map<string, bool>)
    requires s.load.list == b && !s.load.pc.Finding? && LoadNext(s).Some? && LoadKept(s, b, saved)
    requires forall t: nat :: t < |s.threads| ==> RunKept(s, b, saved, s.threads[t])
    ensures
      var s' := LoadNext(s).value;
      s'.threads == s.threads && forall t: nat :: t < |s'.threads| ==> RunKept(s', b, saved, s'.threads[t])
  {
    var s' := LoadNext(s).value;
    assert s'.threads == s.threads;
    forall t: nat | t < |s'.threads|
      ensures RunKept(s', b, saved, s'.threads[t])
    {
      assert RunKept(s, b, saved, s.threads[t]);
      forall ref <- s.threads[t].list
        ensures FlagKept(s', b, saved, ref)
      {
        LoadFlagsKept(s, b, saved, ref);
      }
    }
  }

  lemma LoadStepKept(s: State, a: seq<Ref>, b: seq<Ref>, saved: map<string, bool>)
    requires Kept(s, a, b, saved) && UniqueIds(b) && LoadNext(s).Some?
    ensures Kept(LoadNext(s).value, a, b, saved)
  {
    if s.load.pc.Finding? {
      FindingKept(s, a, b, saved);
    } else {
      Reordering.StepInv(s, Load, a, b);
      LoadEntriesKept(s, b, saved);
      LoadChecksKept(s, b, saved);
      LoadRunsKept(s, b, saved);
      assert LoadNext(s).value.store.Keys >= s.store.Keys;
    }
  }

  lemma ReachesKept(s: State, s': State, a: seq<Ref>, b: seq<Ref>, saved: map<string, bool>)
    requires Kept(s, a, b, saved) && UniqueIds(b) && Reaches(Next, s, s')
    ensures Kept(s', a, b, saved)
  {
    var inv := (s: State) => Kept(s, a, b, saved);
    forall s: State, step: Step | inv(s) && Next(s, step).Some?
      ensures inv(Next(s, step).value)
    {
      if step.Load? {
        LoadStepKept(s, a, b, saved);
      } else {
        RunStepKept(s, step, a, b, saved);
      }
    }
    var steps :| Run(Next, s, steps) == Some(s');
    RunKeeps(Next, inv, s, steps);
  }

  lemma KeptIsRestored(s: State, a: seq<Ref>, b: seq<Ref>, saved: map<string, bool>)
    requires Kept(s, a, b, saved) && LoadOver(s)
    ensures Restored(s, b, saved)
  {
    assert s.checks == b;
    forall ref <- b
      ensures ref in s.flags && s.flags[ref] == Lookup(saved, ref.id)
    {
      var i :| 0 <= i < |b| && b[i] == ref;
      assert Lists(b, ref.id) && FlagKept(s, b, saved, ref);
    }
  }

  // ----- the exact condition -----

  lemma SyncedKept(s: State, a: seq<Ref>, b: seq<Ref>)
    requires Synced(s, a, b) && Harmless(s, b, SavedFlags(s))
    ensures Kept(s, a, b, SavedFlags(s))
  {
    InitialInv(s, a, b);
    forall t: nat | t < |s.threads|
      ensures RunKept(s, b, SavedFlags(s), s.threads[t])
    {
      assert s.threads[t] in s.threads;
    }
  }

  /** An update ranges over the cleared list and deletes every entry. */
  lemma ReachDeleted(s: State, a: seq<Ref>, b: seq<Ref>) returns (s': State)
    requires Synced(s, a, b) && s.threads != []
    ensures Reaches(Next, s, s') && Reordering.Inv(s', a, b) && AllFree(s') && s'.store == map[]
    ensures s'.checks == [] && s'.load == Loading(b, 0, Finding)
    ensures forall th <- s'.threads :: !th.pc.Starting? && !th.pc.Writing? && th.list == []
  {
    InitialInv(s, a, b);
    assert s.threads[0] in s.threads;
    var s1 := Next(s, Load).value;
    Reaches1(Next, s, Load);
    Reordering.StepInv(s, Load, a, b);
    var s2 := ReachGetting(s1, 0, a, b);
    ReachesThen(Next, s, s1, s2);
    var s3 := Next(s2, Go(0)).value;
    Reaches1(Next, s2, Go(0));
    Reordering.StepInv(s2, Go(0), a, b);
    ReachesThen(Next, s, s2, s3);
    s' := ReachEmptied(s3, 0, a, b);
    ReachesThen(Next, s, s3, s');
  }

  /** With the entries gone, the Reload makes every check monitored. */
  lemma DeletedMonitors(s: State, a: seq<Ref>, b: seq<Ref>) returns (s': State)
    requires Reordering.Inv(s, a, b) && AllFree(s) && s.store == map[] && UniqueIds(b)
    requires s.checks == [] && s.load == Loading(b, 0, Finding)
    requires forall th <- s.threads :: !th.pc.Starting? && !th.pc.Writing? && th.list == []
    ensures Reaches(Next, s, s') && LoadOver(s') && Restored(s', b, map[])
  {
    forall t: nat | t < |s.threads|
      ensures RunKept(s, b, map[], s.threads[t])
    {
      assert s.threads[t] in s.threads;
    }
    s' := LoadAll(s, a, b);
    ReachesKept(s, s', a, b, map[]);
    KeptIsRestored(s', a, b, map[]);
  }

  /** The Reload restores the flags of the surviving checks in every interleaving
      with plain updates exactly when there is no update or all these flags are
      set; otherwise an unmonitored check can come back monitored. */
  lemma ReloadRestoresIff(s0: State, a: seq<Ref>, b: seq<Ref>)
    requires UniqueIds(a) && UniqueIds(b) && Synced(s0, a, b)
    ensures ReloadRestores(s0, b)
       <==> s0.threads == [] || forall ref <- b :: Lists(a, ref.id) ==> SavedFlags(s0)[ref.id]
  {
    var saved := SavedFlags(s0);
    if s0.threads == [] || forall ref <- b :: Lookup(saved, ref.id) {
      SyncedKept(s0, a, b);
      forall s | Reaches(Next, s0, s) && LoadOver(s)
        ensures Restored(s, b, saved)
      {
        ReachesKept(s0, s, a, b, saved);
        KeptIsRestored(s, a, b, saved);
      }
    } else {
      var ref :| ref in b && !Lookup(saved, ref.id);
      var s1 := ReachDeleted(s0, a, b);
      var s2 := DeletedMonitors(s1, a, b);
      ReachesThen(Next, s0, s1, s2);
      assert s2.flags[ref] == Lookup(map[], ref.id);
    }
  }

  /** The failing run for one unmonitored check and one periodic update. */
  lemma UnmonitoredComesBack(id: string) returns (s0: State, s: State)
    ensures Synced(s0, [Ref(0, id)], [Ref(1, id)]) && Ref(0, id) in s0.flags && !s0.flags[Ref(0, id)]
    ensures Reaches(Next, s0, s) && LoadOver(s) && Ref(1, id) in s.flags && s.flags[Ref(1, id)]
  {
    var a, b := [Ref(0, id)], [Ref(1, id)];
    s0 := State([Entry(id, false, Nobody)], map[id := 0], a, map[Ref(0, id) := false], Missing, false,
                [Thread("", true, [], 0, Ranging, [])], Loading(b, 0, Clearing));
    assert a[0].id == id;
    var s1 := ReachDeleted(s0, a, b);
    s := DeletedMonitors(s1, a, b);
    ReachesThen(Next, s0, s1, s);
    assert b[0] in b;
  }
}
