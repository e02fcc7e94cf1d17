/** Updates over a fixed list lose nothing: when all of them have finished, every
    entry of the database has the flag of its check, there are no other entries,
    and so has the state file if the last Serialize succeeded. A flag that is set
    without an update gets there with the next update that begins. */
module LostUpdates {
  import opened Machines
  import Registries
  import opened Updates
  import opened Deadlocks
  import opened Serialised

  function Value(s: State, list: seq<Ref>, k: nat): bool
    requires StoreSound(s) && InStore(s, list) && k < |list|
  {
    s.heap[s.store[list[k].id]].monitored
  }

  /** The run has not yet read the flag of check `k` and is going to. */
  predicate WillRead(list: seq<Ref>, th: Thread, k: nat) {
    match th.pc
    case Starting => Lists(list, th.id)
    case Ranging => true
    case Writing(_) => th.at < k
    case Done => false
    case _ => InLoop(th.pc) && th.at <= k
  }

  /** The run updates the database, or has done so. */
  predicate WillUpdate(list: seq<Ref>, th: Thread) {
    match th.pc
    case Starting => Lists(list, th.id)
    case Done => th.list == list
    case _ => true
  }

  /** The run has read the flag of check `k` and not yet written it. */
  predicate IsWriting(th: Thread, k: nat) {
    th.pc.Writing? && th.at == k
  }

  // ----- what a step does to check `k` -----

  datatype Effect = Reads | ReadNow | WrittenNow | Nothing

  ghost predicate Has(e: Effect, s: State, s': State, t: nat, list: seq<Ref>, k: nat)
    requires t < |s.threads| && t < |s'.threads| && k < |list|
    requires StoreSound(s) && InStore(s, list) && StoreSound(s') && InStore(s', list)
    requires list[k] in s.flags && list[k] in s'.flags
  {
    var th, th' := s.threads[t], s'.threads[t];
    match e
    case Reads => WillRead(list, th', k)
    case ReadNow =>
      && th.pc.Reading? && th.at == k && th'.pc == Writing(s.flags[list[k]]) && th'.at == k
      && Value(s', list, k) == Value(s, list, k) && s'.flags[list[k]] == s.flags[list[k]]
    case WrittenNow =>
      && IsWriting(th, k) && !IsWriting(th', k)
      && Value(s', list, k) == th.pc.flag && s'.flags[list[k]] == s.flags[list[k]]
    case Nothing =>
      && !WillRead(list, th, k) && !IsWriting(th, k) && !IsWriting(th', k)
      && Value(s', list, k) == Value(s, list, k) && s'.flags[list[k]] == s.flags[list[k]]
  }

  predicate Ready(s: State, t: nat, list: seq<Ref>, k: nat) {
    && t < |s.threads| && k < |list| && list[k] in s.flags && StoreSound(s) && InStore(s, list)
    && RangesOver(s, list, s.threads[t]) && AtPoint(s.heap, s.threads[t])
  }

  lemma WritingEffect(s: State, s': State, t: nat, list: seq<Ref>, k: nat) returns (e: Effect)
    requires Ready(s, t, list, k) && Ready(s', t, list, k) && UniqueIds(list)
    requires s.threads[t].pc.Writing? && GoNext(s, t, s.threads[t]) == Some(s')
    ensures Has(e, s, s', t, list, k)
  {
    var th := s.threads[t];
    assert s'.threads[t].pc == Getting && s'.threads[t].at == th.at + 1;
    assert th.held[|th.held| - 1] == s.store[list[th.at].id];
    if k == th.at {
      e := WrittenNow;
    } else {
      assert list[k].id != list[th.at].id;
      e := if k > th.at then Reads else Nothing;
    }
  }

  lemma ReadingEffect(s: State, s': State, t: nat, list: seq<Ref>, k: nat) returns (e: Effect)
    requires Ready(s, t, list, k) && Ready(s', t, list, k)
    requires s.threads[t].pc.Reading? && GoNext(s, t, s.threads[t]) == Some(s')
    ensures Has(e, s, s', t, list, k)
  {
    var th := s.threads[t];
    e := if k > th.at then Reads else if k == th.at then ReadNow else Nothing;
  }

  lemma LockingEffect(s: State, s': State, t: nat, list: seq<Ref>, k: nat) returns (e: Effect)
    requires Ready(s, t, list, k) && Ready(s', t, list, k)
    requires s.threads[t].pc.Getting? || s.threads[t].pc.Locking?
    requires Framed(s, s', t) && GoNext(s, t, s.threads[t]) == Some(s')
    ensures Has(e, s, s', t, list, k)
  {
    e := if k >= s.threads[t].at then Reads else Nothing;
  }

  lemma FoundIfListed(list: seq<Ref>, id: string)
    ensures FindRef(list, id) < |list| <==> Lists(list, id)
  {
    if Lists(list, id) {
      var i :| 0 <= i < |list| && list[i].id == id;
      assert FindRef(list, id) <= i;
    }
  }

  lemma BeginEffect(s: State, s': State, t: nat, list: seq<Ref>, k: nat) returns (e: Effect)
    requires Ready(s, t, list, k) && Ready(s', t, list, k) && s.checks == list
    requires s.threads[t].pc.Starting? || s.threads[t].pc.Ranging?
    requires Begin(s, t, s.threads[t]) == s'
    ensures Has(e, s, s', t, list, k)
  {
    e := if s'.threads[t].pc.Done? then Nothing else Reads;
    FoundIfListed(list, s.threads[t].id);
  }

  lemma ReturnEffect(s: State, s': State, t: nat, list: seq<Ref>, k: nat)
    requires Ready(s, t, list, k) && Ready(s', t, list, k)
    requires !InLoop(s.threads[t].pc) && !s.threads[t].pc.Starting? && !s.threads[t].pc.Ranging?
    requires Framed(s, s', t) && GoNext(s, t, s.threads[t]) == Some(s')
    ensures Has(Nothing, s, s', t, list, k)
  {
  }

  lemma VisitEffect(s: State, s': State, step: Step, list: seq<Ref>, k: nat)
    requires step.Visit? || step.Fail?
    requires Ready(s, step.t, list, k) && Ready(s', step.t, list, k) && KeepsEntries(s, s', list)
    requires Framed(s, s', step.t) && Next(s, step) == Some(s')
    ensures Has(Nothing, s, s', step.t, list, k)
  {
  }

  lemma StepEffect(s: State, s': State, step: Step, list: seq<Ref>, k: nat) returns (e: Effect)
    requires Serialised.Inv(s, list) && k < |list|
    requires !step.Load? && Next(s, step) == Some(s') && Framed(s, s', step.t)
    requires Ready(s, step.t, list, k) && Ready(s', step.t, list, k)
    ensures Has(e, s, s', step.t, list, k)
  {
    StepRanges(s, s', step, list);
    var t := step.t;
    if !step.Go? {
      VisitEffect(s, s', step, list, k);
      e := Nothing;
    } else if s.threads[t].pc.Starting? || s.threads[t].pc.Ranging? {
      e := BeginEffect(s, s', t, list, k);
    } else if s.threads[t].pc.Writing? {
      e := WritingEffect(s, s', t, list, k);
    } else if s.threads[t].pc.Reading? {
      e := ReadingEffect(s, s', t, list, k);
    } else if InLoop(s.threads[t].pc) {
      e := LockingEffect(s, s', t, list, k);
    } else {
      ReturnEffect(s, s', t, list, k);
      e := Nothing;
    }
  }

  // ----- no update is lost -----

  ghost predicate SomeWillRead(s: State, list: seq<Ref>, k: nat) {
    exists t: nat :: t < |s.threads| && WillRead(list, s.threads[t], k)
  }

  predicate WritesFlag(th: Thread, k: nat, flag: bool) {
    IsWriting(th, k) && th.pc.flag == flag
  }

  /** The flag of check `k` is in its entry, or on its way there. */
  ghost predicate Settled(s: State, list: seq<Ref>, k: nat)
    requires k < |list| && list[k] in s.flags && StoreSound(s) && InStore(s, list)
  {
    || (exists t: nat :: t < |s.threads| && WritesFlag(s.threads[t], k, s.flags[list[k]]))
    || (Value(s, list, k) == s.flags[list[k]] && forall t: nat :: t < |s.threads| ==> !IsWriting(s.threads[t], k))
  }

  ghost predicate NotLost(s: State, list: seq<Ref>, k: nat) {
    && k < |list| && list[k] in s.flags && StoreSound(s) && InStore(s, list)
    && (SomeWillRead(s, list, k) || Settled(s, list, k))
  }

  /** Two runs are never about to write the same entry. */
  lemma OneWriter(s: State, list: seq<Ref>, t: nat, u: nat)
    requires Serialised.Inv(s, list) && t < |s.threads| && u < |s.threads|
    requires InLoop(s.threads[t].pc) && s.threads[t].held != [] && s.threads[u].pc.Writing?
    ensures t == u
  {
    assert Sound(s.heap, u, s.threads[u]);
    HoldersAreOne(s, list, t, u);
  }

  lemma StillNotLost(s: State, s': State, t: nat, list: seq<Ref>, k: nat, e: Effect)
    requires NotLost(s, list, k) && list[k] in s'.flags && StoreSound(s') && InStore(s', list)
    requires Framed(s, s', t) && Has(e, s, s', t, list, k)
    requires e == ReadNow || e == WrittenNow ==>
      forall u: nat :: u < |s.threads| && u != t ==> !IsWriting(s.threads[u], k)
    ensures NotLost(s', list, k)
  {
    assert forall u: nat :: u < |s.threads| && u != t ==> s'.threads[u] == s.threads[u];
    match e
    case Reads => assert WillRead(list, s'.threads[t], k);
    case ReadNow => assert WritesFlag(s'.threads[t], k, s'.flags[list[k]]);
    case WrittenNow =>
      if SomeWillRead(s, list, k) {
        var u: nat :| u < |s.threads| && WillRead(list, s.threads[u], k);
        assert WillRead(list, s'.threads[u], k);
      }
    case Nothing =>
      if SomeWillRead(s, list, k) {
        var u: nat :| u < |s.threads| && WillRead(list, s.threads[u], k);
        assert WillRead(list, s'.threads[u], k);
      } else if w: nat :| w < |s.threads| && WritesFlag(s.threads[w], k, s.flags[list[k]]) {
        assert WritesFlag(s'.threads[w], k, s'.flags[list[k]]);
      }
  }

  lemma ReadyAt(s: State, t: nat, list: seq<Ref>, k: nat)
    requires Serialised.Inv(s, list) && t < |s.threads| && k < |list|
    ensures Ready(s, t, list, k)
  {
    assert Sound(s.heap, t, s.threads[t]) && RangesOver(s, list, s.threads[t]);
    assert list[k] in s.checks;
  }

  lemma StepNotLost(s: State, step: Step, list: seq<Ref>, k: nat)
    requires Serialised.Inv(s, list) && NotLost(s, list, k) && Next(s, step).Some?
    ensures NotLost(Next(s, step).value, list, k)
  {
    Serialised.StepInv(s, step, list);
    RunFrame(s, step);
    var s', t := Next(s, step).value, step.t;
    ReadyAt(s, t, list, k);
    ReadyAt(s', t, list, k);
    var e := StepEffect(s, s', step, list, k);
    if e == ReadNow || e == WrittenNow {
      forall u: nat | u < |s.threads| && u != t
        ensures !IsWriting(s.threads[u], k)
      {
        if IsWriting(s.threads[u], k) {
          OneWriter(s, list, t, u);
        }
      }
    }
    StillNotLost(s, s', t, list, k, e);
  }

  lemma {:induction false} RunNotLost(s: State, steps: seq<Step>, list: seq<Ref>, k: nat)
    requires Serialised.Inv(s, list) && NotLost(s, list, k) && Run(Next, s, steps).Some?
    ensures NotLost(Run(Next, s, steps).value, list, k)
    decreases |steps|
  {
    if steps != [] {
      Serialised.StepInv(s, steps[0], list);
      StepNotLost(s, steps[0], list, k);
      RunNotLost(Next(s, steps[0]).value, steps[1..], list, k);
    }
  }

  /** The run is going to call UpdateDatabase and has not yet begun to. */
  predicate NotBegun(list: seq<Ref>, th: Thread) {
    (th.pc.Starting? && Lists(list, th.id)) || th.pc.Ranging?
  }

  lemma NotBegunNotLost(s: State, list: seq<Ref>, u: nat, k: nat)
    requires Serialised.Inv(s, list) && u < |s.threads| && NotBegun(list, s.threads[u]) && k < |list|
    ensures NotLost(s, list, k)
  {
    ReadyAt(s, u, list, k);
    assert WillRead(list, s.threads[u], k);
  }

  lemma EntriesHaveFlags(s: State, steps: seq<Step>, list: seq<Ref>, u: nat, k: nat)
    requires Serialised.Inv(s, list) && Run(Next, s, steps).Some? && AllDone(Run(Next, s, steps).value)
    requires u < |s.threads| && NotBegun(list, s.threads[u]) && k < |list|
    ensures
      var s' := Run(Next, s, steps).value;
      && list[k] in s'.flags && list[k].id in s'.store && s'.store[list[k].id] < |s'.heap|
      && s'.heap[s'.store[list[k].id]].monitored == s'.flags[list[k]]
  {
    NotBegunNotLost(s, list, u, k);
    RunNotLost(s, steps, list, k);
    DoneMeansWritten(Run(Next, s, steps).value, list, k);
  }

  lemma DoneMeansWritten(s: State, list: seq<Ref>, k: nat)
    requires NotLost(s, list, k) && AllDone(s)
    ensures Value(s, list, k) == s.flags[list[k]]
  {
    assert forall t: nat :: t < |s.threads| ==> s.threads[t] in s.threads;
  }

  // ----- no other entry stays -----

  predicate AllListed(s: State, list: seq<Ref>) {
    forall id <- s.store :: Lists(list, id)
  }

  predicate SweptBy(s: State, list: seq<Ref>, th: Thread) {
    match th.pc
    case Deleting(keys) => forall id <- s.store :: Lists(list, id) || id in keys
    case Opening => AllListed(s, list)
    case Encoding(_, _) => AllListed(s, list)
    case Unlocking => AllListed(s, list)
    case Done => th.list == list ==> AllListed(s, list)
    case _ => true
  }

  ghost predicate Swept(s: State, list: seq<Ref>) {
    forall t: nat :: t < |s.threads| ==> SweptBy(s, list, s.threads[t])
  }

  lemma StepSwept(s: State, step: Step, list: seq<Ref>)
    requires Serialised.Inv(s, list) && Swept(s, list) && Next(s, step).Some?
    ensures Swept(Next(s, step).value, list)
  {
    Serialised.StepInv(s, step, list);
    RunFrame(s, step);
    var s', t := Next(s, step).value, step.t;
    OwnSwept(s, s', step, list);
    forall u: nat | u < |s'.threads|
      ensures SweptBy(s', list, s'.threads[u])
    {
      assert SweptBy(s, list, s.threads[u]);
    }
  }

  lemma OwnSwept(s: State, s': State, step: Step, list: seq<Ref>)
    requires Serialised.Inv(s, list) && !step.Load? && Next(s, step) == Some(s') && Framed(s, s', step.t)
    requires SweptBy(s, list, s.threads[step.t])
    ensures s'.store.Keys <= s.store.Keys && SweptBy(s', list, s'.threads[step.t])
  {
    var t := step.t;
    assert Sound(s.heap, t, s.threads[t]) && RangesOver(s, list, s.threads[t]);
    match step
    case Go(_) =>
      if InLoop(s.threads[t].pc) {
        LoopRanges(s, s', t, list);
        LoopGoesOn(s, s', t);
      } else if Begins(s.threads[t].pc) {
        BeginSwept(s, s', t, list);
      } else {
        ReturnSwept(s, s', t, list);
      }
    case Visit(_, key) => VisitSwept(s, s', t, key, list);
    case Fail(_, _) =>
  }

  lemma VisitSwept(s: State, s': State, t: nat, key: string, list: seq<Ref>)
    requires t < |s.threads| && VisitNext(s, t, s.threads[t], key) == Some(s') && Framed(s, s', t)
    requires InStore(s, list) && RangesOver(s, list, s.threads[t]) && SweptBy(s, list, s.threads[t])
    ensures s'.store.Keys <= s.store.Keys && SweptBy(s', list, s'.threads[t])
  {
  }

  lemma BeginSwept(s: State, s': State, t: nat, list: seq<Ref>)
    requires t < |s.threads| && (s.threads[t].pc.Starting? || s.threads[t].pc.Ranging?) && s.threads[t].list == []
    requires Begin(s, t, s.threads[t]) == s' && |s'.threads| == |s.threads| && list != []
    ensures s'.store == s.store && SweptBy(s', list, s'.threads[t])
  {
  }

  lemma ReturnSwept(s: State, s': State, t: nat, list: seq<Ref>)
    requires t < |s.threads| && GoNext(s, t, s.threads[t]) == Some(s') && Framed(s, s', t)
    requires !InLoop(s.threads[t].pc) && !s.threads[t].pc.Starting? && !s.threads[t].pc.Ranging?
    requires SweptBy(s, list, s.threads[t])
    ensures s'.store == s.store && SweptBy(s', list, s'.threads[t])
  {
  }

  // ----- the state file -----

  /** The run has not come to the end of its Serialize. */
  predicate Busy(list: seq<Ref>, th: Thread) {
    match th.pc
    case Starting => Lists(list, th.id)
    case Unlocking => false
    case Done => false
    case _ => true
  }

  ghost predicate SomeBusy(s: State, list: seq<Ref>) {
    exists t: nat :: t < |s.threads| && Busy(list, s.threads[t])
  }

  /** `saved` has the flags of all entries of the store but those of `rest`. */
  predicate Encoded(s: State, rest: set<string>, saved: map<string, bool>) {
    && (forall id <- s.store :: id in rest || id in saved)
    && (forall id <- saved :: id in s.store && s.store[id] < |s.heap| && s.heap[s.store[id]].monitored == saved[id])
  }

  /** While a run encodes, the file is the one that it has truncated. */
  predicate EncodedBy(s: State, th: Thread) {
    th.pc.Encoding? ==> Encoded(s, th.pc.rest, th.pc.saved) && s.file.Empty?
  }

  ghost predicate FileInv(s: State, list: seq<Ref>) {
    && (forall t: nat :: t < |s.threads| ==> EncodedBy(s, s.threads[t]))
    && (SomeBusy(s, list) || (s.synced ==> s.file.Contents? && Encoded(s, {}, s.file.saved)))
  }

  /** The entries and the file are as before. */
  predicate SameData(s: State, s': State) {
    && s'.store == s.store && s'.file == s.file && |s.heap| <= |s'.heap|
    && forall e :: 0 <= e < |s.heap| ==> s'.heap[e].monitored == s.heap[e].monitored
  }

  lemma LoopKeepsData(s: State, s': State, t: nat)
    requires t < |s.threads| && GoNext(s, t, s.threads[t]) == Some(s')
    requires s.threads[t].pc.Getting? || s.threads[t].pc.Locking?
    ensures SameData(s, s')
  {
  }

  /** Only a run that has locked an entry changes data. */
  lemma UnlockedKeepsData(s: State, s': State, step: Step, list: seq<Ref>)
    requires !step.Load? && Next(s, step) == Some(s') && Framed(s, s', step.t)
    requires AtPoint(s.heap, s.threads[step.t]) && s.threads[step.t].held == []
    requires InStore(s, list) && list != [] && RangesOver(s, list, s.threads[step.t])
    ensures SameData(s, s')
  {
    if step.Go? && (s.threads[step.t].pc.Getting? || s.threads[step.t].pc.Locking?) {
      LoopKeepsData(s, s', step.t);
    }
  }

  lemma SameDataEncoded(s: State, s': State, rest: set<string>, saved: map<string, bool>)
    requires SameData(s, s') && Encoded(s, rest, saved)
    ensures Encoded(s', rest, saved)
  {
  }

  lemma OwnEncoded(s: State, s': State, step: Step)
    requires !step.Load? && Next(s, step) == Some(s') && Framed(s, s', step.t)
    requires EncodedBy(s, s.threads[step.t]) && StoreSound(s)
    ensures EncodedBy(s', s'.threads[step.t])
  {
    match step
    case Go(t) => GoEncoded(s, s', t);
    case Visit(t, key) => VisitEncoded(s, s', t, key);
    case Fail(_, _) =>
  }

  lemma GoEncoded(s: State, s': State, t: nat)
    requires t < |s.threads| && GoNext(s, t, s.threads[t]) == Some(s') && Framed(s, s', t)
    ensures EncodedBy(s', s'.threads[t])
  {
    if s.threads[t].pc.Opening? {
      assert s'.threads[t].pc == Encoding(s.store.Keys, map[]) && s'.store == s.store;
    } else if InLoop(s.threads[t].pc) {
      LoopGoesOn(s, s', t);
    }
  }

  lemma VisitEncoded(s: State, s': State, t: nat, key: string)
    requires t < |s.threads| && VisitNext(s, t, s.threads[t], key) == Some(s') && Framed(s, s', t)
    requires EncodedBy(s, s.threads[t]) && StoreSound(s)
    ensures EncodedBy(s', s'.threads[t])
  {
  }

  lemma OthersEncoded(s: State, s': State, step: Step, list: seq<Ref>, u: nat)
    requires Serialised.Inv(s, list) && !step.Load? && Next(s, step) == Some(s') && Framed(s, s', step.t)
    requires u < |s.threads| && u != step.t && EncodedBy(s, s.threads[u])
    ensures EncodedBy(s', s'.threads[u])
  {
    var t := step.t;
    if s.threads[u].pc.Encoding? {
      assert Sound(s.heap, u, s.threads[u]) && RangesOver(s, list, s.threads[u]);
      assert Sound(s.heap, t, s.threads[t]) && RangesOver(s, list, s.threads[t]);
      if s.threads[t].held != [] {
        HoldersAreOne(s, list, t, u);
      }
      UnlockedKeepsData(s, s', step, list);
      SameDataEncoded(s, s', s.threads[u].pc.rest, s.threads[u].pc.saved);
    }
  }

  /** A step after which its run is not busy: the end of Serialize, or a step that
      leaves the database and the file alone. */
  lemma NoLongerBusy(s: State, s': State, step: Step, list: seq<Ref>)
    requires !step.Load? && Next(s, step) == Some(s') && Framed(s, s', step.t)
    requires s.checks == list && EncodedBy(s, s.threads[step.t]) && !Busy(list, s'.threads[step.t])
    ensures
      || !s'.synced
      || (s'.file.Contents? && Encoded(s', {}, s'.file.saved))
      || (!Busy(list, s.threads[step.t]) && SameData(s, s') && s'.file == s.file && s'.synced == s.synced)
  {
    var th := s.threads[step.t];
    if step.Go? {
      GoNoLongerBusy(s, s', step.t, list);
    }
  }

  lemma BeginNoLongerBusy(s: State, s': State, t: nat, list: seq<Ref>)
    requires t < |s.threads| && Begins(s.threads[t].pc) && Begin(s, t, s.threads[t]) == s' && Framed(s, s', t)
    requires s.checks == list && !Busy(list, s'.threads[t])
    ensures !Busy(list, s.threads[t]) && SameData(s, s') && s'.file == s.file && s'.synced == s.synced
  {
    FoundIfListed(list, s.threads[t].id);
  }

  lemma EncodingNoLongerBusy(s: State, s': State, t: nat)
    requires t < |s.threads| && s.threads[t].pc.Encoding? && GoNext(s, t, s.threads[t]) == Some(s')
    requires EncodedBy(s, s.threads[t])
    ensures s'.synced && s'.file.Contents? && Encoded(s', {}, s'.file.saved)
  {
  }

  lemma UnlockingNotBusy(s: State, s': State, t: nat, list: seq<Ref>)
    requires t < |s.threads| && s.threads[t].pc.Unlocking? && GoNext(s, t, s.threads[t]) == Some(s')
    ensures SameData(s, s') && s'.file == s.file && s'.synced == s.synced
  {
  }

  lemma GoNoLongerBusy(s: State, s': State, t: nat, list: seq<Ref>)
    requires t < |s.threads| && GoNext(s, t, s.threads[t]) == Some(s') && Framed(s, s', t)
    requires s.checks == list && EncodedBy(s, s.threads[t]) && !Busy(list, s'.threads[t])
    ensures
      || (s'.file.Contents? && Encoded(s', {}, s'.file.saved))
      || (!Busy(list, s.threads[t]) && SameData(s, s') && s'.file == s.file && s'.synced == s.synced)
  {
    var pc := s.threads[t].pc;
    if Begins(pc) {
      BeginNoLongerBusy(s, s', t, list);
    } else if InLoop(pc) {
      LoopGoesOn(s, s', t);
    } else if Sweeps(pc) {
      SweepGoesOn(s, s', t);
    } else if pc.Encoding? {
      EncodingNoLongerBusy(s, s', t);
    } else if pc.Opening? {
      SerializeGoesOn(s, s', t);
    } else {
      UnlockingNotBusy(s, s', t, list);
    }
  }

  lemma OthersBusy(s: State, s': State, t: nat, list: seq<Ref>)
    requires Framed(s, s', t) && SomeBusy(s, list) && !Busy(list, s.threads[t])
    ensures SomeBusy(s', list)
  {
    var u: nat :| u < |s.threads| && Busy(list, s.threads[u]);
    assert Busy(list, s'.threads[u]);
  }

  lemma StepFileInv(s: State, step: Step, list: seq<Ref>)
    requires Serialised.Inv(s, list) && FileInv(s, list) && Next(s, step).Some?
    ensures FileInv(Next(s, step).value, list)
  {
    Serialised.StepInv(s, step, list);
    RunFrame(s, step);
    var s', t := Next(s, step).value, step.t;
    OwnEncoded(s, s', step);
    forall u: nat | u < |s'.threads|
      ensures EncodedBy(s', s'.threads[u])
    {
      if u != t {
        OthersEncoded(s, s', step, list, u);
      }
    }
    if !Busy(list, s'.threads[t]) {
      NoLongerBusy(s, s', step, list);
      if SomeBusy(s, list) && !Busy(list, s.threads[t]) {
        OthersBusy(s, s', t, list);
      }
    }
  }

  // ----- when all updates have finished -----

  ghost predicate SyncInv(s: State, list: seq<Ref>, u: nat) {
    && Serialised.Inv(s, list) && Swept(s, list) && FileInv(s, list)
    && u < |s.threads| && WillUpdate(list, s.threads[u])
  }

  lemma GoStillUpdates(s: State, s': State, t: nat, list: seq<Ref>)
    requires t < |s.threads| && GoNext(s, t, s.threads[t]) == Some(s') && Framed(s, s', t)
    requires InStore(s, list) && RangesOver(s, list, s.threads[t]) && s.checks == list
    requires WillUpdate(list, s.threads[t])
    ensures WillUpdate(list, s'.threads[t])
  {
    if InLoop(s.threads[t].pc) {
      LoopGoesOn(s, s', t);
    } else {
      FoundIfListed(list, s.threads[t].id);
    }
  }

  lemma StillUpdates(s: State, s': State, step: Step, list: seq<Ref>, u: nat)
    requires !step.Load? && Next(s, step) == Some(s') && Framed(s, s', step.t)
    requires InStore(s, list) && RangesOver(s, list, s.threads[step.t]) && s.checks == list
    requires u < |s.threads| && WillUpdate(list, s.threads[u])
    ensures WillUpdate(list, s'.threads[u])
  {
    if u == step.t && step.Go? {
      GoStillUpdates(s, s', u, list);
    }
  }

  lemma {:induction false} RunSyncInv(s: State, steps: seq<Step>, list: seq<Ref>, u: nat)
    requires SyncInv(s, list, u) && Run(Next, s, steps).Some?
    ensures SyncInv(Run(Next, s, steps).value, list, u)
    decreases |steps|
  {
    if steps != [] {
      Serialised.StepInv(s, steps[0], list);
      StepSwept(s, steps[0], list);
      StepFileInv(s, steps[0], list);
      RunFrame(s, steps[0]);
      StillUpdates(s, Next(s, steps[0]).value, steps[0], list, u);
      RunSyncInv(Next(s, steps[0]).value, steps[1..], list, u);
    }
  }

  lemma StartSyncInv(s0: State, list: seq<Ref>, u: nat)
    requires Start(s0, list) && u < |s0.threads| && WillUpdate(list, s0.threads[u])
    ensures SyncInv(s0, list, u)
  {
    StartInv(s0, list);
    forall t: nat | t < |s0.threads|
      ensures s0.threads[t].pc.Starting? || s0.threads[t].pc.Ranging?
    {
      assert s0.threads[t] in s0.threads;
    }
    assert Busy(list, s0.threads[u]);
  }

  // ----- flags that are set at any time -----

  /** A step of a run, or a flag set without an update, as Perform and the start
      and stop goroutines do. */
  datatype Event = Act(step: Step) | SetFlag(ref: Ref, flag: bool)

  function NextEvent(s: State, event: Event): Option<State> {
    match event
    case Act(step) => Next(s, step)
    case SetFlag(ref, flag) => Some(s.(flags := s.flags[ref := flag]))
  }

  lemma EventSyncInv(s: State, event: Event, list: seq<Ref>, u: nat)
    requires SyncInv(s, list, u) && NextEvent(s, event).Some?
    ensures SyncInv(NextEvent(s, event).value, list, u)
  {
    match event
    case Act(step) =>
      assert Run(Next, s, [step]) == Run(Next, Next(s, step).value, []);
      RunSyncInv(s, [step], list, u);
    case SetFlag(ref, flag) => FlagSyncInv(s, ref, flag, list, u);
  }

  lemma FlagSyncInv(s: State, ref: Ref, flag: bool, list: seq<Ref>, u: nat)
    requires SyncInv(s, list, u)
    ensures SyncInv(s.(flags := s.flags[ref := flag]), list, u)
  {
    FlagInv(s, ref, flag, list);
    var s' := s.(flags := s.flags[ref := flag]);
    forall t: nat | t < |s'.threads|
      ensures SweptBy(s', list, s'.threads[t]) && EncodedBy(s', s'.threads[t])
    {
      assert SweptBy(s, list, s.threads[t]) && EncodedBy(s, s.threads[t]);
    }
    if SomeBusy(s, list) {
      var t: nat :| t < |s.threads| && Busy(list, s.threads[t]);
      assert Busy(list, s'.threads[t]);
    }
  }

  lemma FlagInv(s: State, ref: Ref, flag: bool, list: seq<Ref>)
    requires Serialised.Inv(s, list)
    ensures Serialised.Inv(s.(flags := s.flags[ref := flag]), list)
  {
    var s' := s.(flags := s.flags[ref := flag]);
    forall e | 0 <= e < |s'.heap|
      ensures OwnerKnows(s', e)
    {
      assert OwnerKnows(s, e);
    }
    forall t | 0 <= t < |s'.threads|
      ensures RangesOver(s', list, s'.threads[t])
    {
      assert RangesOver(s, list, s.threads[t]);
    }
  }

  lemma {:induction false} EventsSyncInv(s: State, events: seq<Event>, list: seq<Ref>, u: nat)
    requires SyncInv(s, list, u) && Run(NextEvent, s, events).Some?
    ensures SyncInv(Run(NextEvent, s, events).value, list, u)
    decreases |events|
  {
    if events != [] {
      EventSyncInv(s, events[0], list, u);
      EventsSyncInv(NextEvent(s, events[0]).value, events[1..], list, u);
    }
  }

  lemma BeginNotBegunBefore(s: State, s': State, t: nat, list: seq<Ref>)
    requires t < |s.threads| && Begins(s.threads[t].pc) && Begin(s, t, s.threads[t]) == s' && Framed(s, s', t)
    requires s.checks == list && NotBegun(list, s'.threads[t])
    ensures NotBegun(list, s.threads[t])
  {
    FoundIfListed(list, s.threads[t].id);
  }

  lemma GoNotBegunBefore(s: State, s': State, t: nat, list: seq<Ref>)
    requires t < |s.threads| && GoNext(s, t, s.threads[t]) == Some(s') && Framed(s, s', t)
    requires s.checks == list && NotBegun(list, s'.threads[t])
    ensures NotBegun(list, s.threads[t])
  {
    if Begins(s.threads[t].pc) {
      BeginNotBegunBefore(s, s', t, list);
    } else {
      BegunGoesOn(s, s', t);
    }
  }

  lemma {:induction false} NotBegunBefore(s: State, events: seq<Event>, list: seq<Ref>, u: nat)
    requires Serialised.Inv(s, list) && Run(NextEvent, s, events).Some?
    requires
      var s' := Run(NextEvent, s, events).value;
      u < |s'.threads| && NotBegun(list, s'.threads[u])
    ensures u < |s.threads| && NotBegun(list, s.threads[u])
    decreases |events|
  {
    if events != [] {
      var s1 := NextEvent(s, events[0]).value;
      match events[0] {
        case Act(step) =>
          Serialised.StepInv(s, step, list);
          RunFrame(s, step);
          NotBegunBefore(s1, events[1..], list, u);
          if step.Go? && step.t == u {
            GoNotBegunBefore(s, s1, u, list);
          }
        case SetFlag(ref, flag) =>
          FlagInv(s, ref, flag, list);
          NotBegunBefore(s1, events[1..], list, u);
      }
    }
  }

  // ----- what the final flags are -----

  /** A run of updates as events. */
  function Acts(steps: seq<Step>): seq<Event> {
    if steps == [] then [] else Acts(steps[..|steps| - 1]) + [Act(steps[|steps| - 1])]
  }

  lemma {:induction false} ActsRun(s: State, steps: seq<Step>)
    requires Run(Next, s, steps).Some?
    ensures Run(NextEvent, s, Acts(steps)) == Run(Next, s, steps)
    decreases |steps|
  {
    if steps != [] {
      var n := |steps| - 1;
      RunLast(Next, s, steps);
      ActsRun(s, steps[..n]);
      RunAppend(NextEvent, s, Acts(steps[..n]), [Act(steps[n])]);
      RunStep(NextEvent, Run(Next, s, steps[..n]).value, Act(steps[n]), []);
      assert [Act(steps[n])] + [] == [Act(steps[n])];
    }
  }

  /** The last event is the first step of a command for `id`, which sets its flag. */
  predicate Commands(threads: seq<Thread>, events: seq<Event>, id: string)
    requires events != []
  {
    var n := |events| - 1;
    && events[n].Act? && events[n].step.Go? && events[n].step.t < |threads|
    && threads[events[n].step.t].pc.Starting? && threads[events[n].step.t].id == id
    && events[n] !in events[..n]
  }

  /** The value of the last event that sets the flag of a check: the first step of a
      command that names it, with the value of the command, or a plain setting. */
  function LastSetting(threads: seq<Thread>, events: seq<Event>, ref: Ref): Option<bool> {
    if events == [] then None
    else
      var n := |events| - 1;
      if events[n].SetFlag? && events[n].ref == ref then Some(events[n].flag)
      else if Commands(threads, events, ref.id) then Some(threads[events[n].step.t].flag)
      else LastSetting(threads, events[..n], ref)
  }

  /** A run is at its start exactly when it has not done a step. */
  ghost predicate Tracks(threads: seq<Thread>, events: seq<Event>, s: State) {
    |s.threads| == |threads| && forall t: nat :: t < |threads| ==> TracksRun(threads[t], events, s.threads[t], t)
  }

  predicate TracksRun(first: Thread, events: seq<Event>, th: Thread, t: nat) {
    && th.id == first.id && th.flag == first.flag
    && (th.pc.Starting? <==> first.pc.Starting? && Act(Go(t)) !in events)
  }

  lemma OneStarts(s: State, s': State, event: Event, t: nat)
    requires NextEvent(s, event) == Some(s') && (event.Act? ==> !event.step.Load?) && t < |s.threads|
    ensures |s'.threads| == |s.threads|
    ensures s'.threads[t].id == s.threads[t].id && s'.threads[t].flag == s.threads[t].flag
    ensures s'.threads[t].pc.Starting? <==> s.threads[t].pc.Starting? && event != Act(Go(t))
  {
    if event.Act? {
      RunFrame(s, event.step);
      if event == Act(Go(t)) {
        if Begins(s.threads[t].pc) {
          BeginGoesOn(s, s', t);
        } else {
          BegunGoesOn(s, s', t);
        }
      }
    }
  }

  lemma SameNumber(s: State, s': State, event: Event)
    requires NextEvent(s, event) == Some(s') && (event.Act? ==> !event.step.Load?)
    ensures |s'.threads| == |s.threads|
  {
    if event.Act? {
      RunFrame(s, event.step);
    }
  }

  lemma StillTracksRun(first: Thread, events: seq<Event>, s: State, s': State, event: Event, t: nat)
    requires t < |s.threads| && TracksRun(first, events, s.threads[t], t)
    requires NextEvent(s, event) == Some(s') && (event.Act? ==> !event.step.Load?)
    ensures t < |s'.threads| && TracksRun(first, events + [event], s'.threads[t], t)
  {
    OneStarts(s, s', event, t);
  }

  lemma StillTracks(threads: seq<Thread>, events: seq<Event>, s: State, s': State, event: Event)
    requires Tracks(threads, events, s) && NextEvent(s, event) == Some(s') && (event.Act? ==> !event.step.Load?)
    ensures Tracks(threads, events + [event], s')
  {
    SameNumber(s, s', event);
    forall t: nat | t < |threads|
      ensures TracksRun(threads[t], events + [event], s'.threads[t], t)
    {
      StillTracksRun(threads[t], events, s, s', event, t);
    }
  }

  /** The first step of a command sets the flag of the check that it names. */
  lemma CommandSets(s: State, s': State, t: nat, list: seq<Ref>, k: nat)
    requires t < |s.threads| && s.threads[t].pc.Starting? && GoNext(s, t, s.threads[t]) == Some(s')
    requires s.checks == list && UniqueIds(list) && k < |list| && list[k] in s.flags
    ensures list[k] in s'.flags
    ensures s'.flags[list[k]] == if s.threads[t].id == list[k].id then s.threads[t].flag else s.flags[list[k]]
  {
    FoundIfListed(list, s.threads[t].id);
  }

  lemma OtherStepSetsNone(s: State, s': State, step: Step)
    requires !step.Load? && Next(s, step) == Some(s') && Framed(s, s', step.t)
    requires step.Go? ==> !s.threads[step.t].pc.Starting?
    ensures s'.flags == s.flags
  {
  }

  ghost predicate FlagIs(threads: seq<Thread>, events: seq<Event>, flags: map<Ref, bool>, s: State, ref: Ref) {
    && ref in s.flags && ref in flags
    && s.flags[ref] == match LastSetting(threads, events, ref) { case None => flags[ref] case Some(v) => v }
  }

  lemma LastSettingNext(threads: seq<Thread>, events: seq<Event>, event: Event, ref: Ref)
    ensures
      LastSetting(threads, events + [event], ref) ==
        if event.SetFlag? && event.ref == ref then Some(event.flag)
        else if Commands(threads, events + [event], ref.id) then Some(threads[event.step.t].flag)
        else LastSetting(threads, events, ref)
  {
    assert (events + [event])[..|events|] == events;
  }

  lemma CommandFlagIs(threads: seq<Thread>, events: seq<Event>, flags: map<Ref, bool>, s: State, s': State, t: nat,
                      list: seq<Ref>, k: nat)
    requires Serialised.Inv(s, list) && k < |list| && t < |s.threads| && s.threads[t].pc.Starting?
    requires GoNext(s, t, s.threads[t]) == Some(s')
    requires Tracks(threads, events, s) && FlagIs(threads, events, flags, s, list[k])
    ensures FlagIs(threads, events + [Act(Go(t))], flags, s', list[k])
  {
    LastSettingNext(threads, events, Act(Go(t)), list[k]);
    assert (events + [Act(Go(t))])[..|events|] == events;
    assert TracksRun(threads[t], events, s.threads[t], t);
    CommandSets(s, s', t, list, k);
  }

  lemma OtherFlagIs(threads: seq<Thread>, events: seq<Event>, flags: map<Ref, bool>, s: State, s': State, step: Step,
                    list: seq<Ref>, k: nat)
    requires k < |list| && !step.Load? && Next(s, step) == Some(s') && Framed(s, s', step.t)
    requires step.Go? ==> !s.threads[step.t].pc.Starting?
    requires Tracks(threads, events, s) && FlagIs(threads, events, flags, s, list[k])
    ensures FlagIs(threads, events + [Act(step)], flags, s', list[k])
  {
    LastSettingNext(threads, events, Act(step), list[k]);
    assert (events + [Act(step)])[..|events|] == events;
    assert TracksRun(threads[step.t], events, s.threads[step.t], step.t);
    OtherStepSetsNone(s, s', step);
  }

  lemma StillFlagIs(threads: seq<Thread>, events: seq<Event>, flags: map<Ref, bool>, s: State, s': State, event: Event,
                    list: seq<Ref>, k: nat)
    requires Serialised.Inv(s, list) && k < |list| && NextEvent(s, event) == Some(s')
    requires Tracks(threads, events, s) && FlagIs(threads, events, flags, s, list[k])
    ensures FlagIs(threads, events + [event], flags, s', list[k])
  {
    match event
    case SetFlag(ref, flag) => LastSettingNext(threads, events, event, list[k]);
    case Act(step) =>
      Serialised.StepInv(s, step, list);
      RunFrame(s, step);
      if step.Go? && s.threads[step.t].pc.Starting? {
        CommandFlagIs(threads, events, flags, s, s', step.t, list, k);
      } else {
        OtherFlagIs(threads, events, flags, s, s', step, list, k);
      }
  }

  ghost predicate Tracked(s0: State, events: seq<Event>, s: State, list: seq<Ref>, k: nat) {
    && k < |list| && Serialised.Inv(s, list) && Tracks(s0.threads, events, s)
    && FlagIs(s0.threads, events, s0.flags, s, list[k])
  }

  lemma StartTracked(s0: State, list: seq<Ref>, k: nat)
    requires Start(s0, list) && k < |list|
    ensures Tracked(s0, [], s0, list, k)
  {
    StartInv(s0, list);
    assert list[k] in list;
  }

  lemma StillTracked(s0: State, events: seq<Event>, s: State, s': State, event: Event, list: seq<Ref>, k: nat)
    requires Tracked(s0, events, s, list, k) && NextEvent(s, event) == Some(s')
    ensures Tracked(s0, events + [event], s', list, k)
  {
    match event {
      case Act(step) => Serialised.StepInv(s, step, list);
      case SetFlag(ref, flag) => FlagInv(s, ref, flag, list);
    }
    StillTracks(s0.threads, events, s, s', event);
    StillFlagIs(s0.threads, events, s0.flags, s, s', event, list, k);
  }

  lemma {:induction false} RunTracked(s0: State, events: seq<Event>, list: seq<Ref>, k: nat)
    requires Start(s0, list) && Run(NextEvent, s0, events).Some? && k < |list|
    ensures Tracked(s0, events, Run(NextEvent, s0, events).value, list, k)
    decreases |events|
  {
    if events == [] {
      StartTracked(s0, list, k);
    } else {
      var n := |events| - 1;
      RunLast(NextEvent, s0, events);
      RunTracked(s0, events[..n], list, k);
      var s, s' := Run(NextEvent, s0, events[..n]).value, Run(NextEvent, s0, events).value;
      StillTracked(s0, events[..n], s, s', events[n], list, k);
      assert events[..n] + [events[n]] == events;
    }
  }

  /** After any events the flag of a registered check is the one that the last command
      or plain setting gave it, and the initial one when there was none. */
  lemma FlagIsLastSetting(s0: State, events: seq<Event>, list: seq<Ref>, k: nat)
    requires Start(s0, list) && Run(NextEvent, s0, events).Some? && k < |list|
    ensures Tracks(s0.threads, events, Run(NextEvent, s0, events).value)
    ensures FlagIs(s0.threads, events, s0.flags, Run(NextEvent, s0, events).value, list[k])
  {
    RunTracked(s0, events, list, k);
  }

  // ----- the main theorem -----

  /** The state file holds exactly the entries of the database. */
  predicate FileIsStore(s: State)
    requires StoreSound(s)
  {
    && s.file.Contents? && s.file.saved.Keys == s.store.Keys
    && forall id <- s.store :: s.file.saved[id] == s.heap[s.store[id]].monitored
  }

  /** The entries of the database are exactly the checks of the list, each with the
      flag of its check, and the file is the same if the last Serialize succeeded. */
  predicate UpToDate(s: State, list: seq<Ref>) {
    && StoreSound(s)
    && s.store.Keys == (set ref <- list :: ref.id)
    && (forall ref <- list :: ref in s.flags && s.heap[s.store[ref.id]].monitored == s.flags[ref])
    && (s.synced ==> FileIsStore(s))
  }

  ghost predicate SomeNotBegun(s: State, list: seq<Ref>) {
    exists t: nat :: t < |s.threads| && NotBegun(list, s.threads[t])
  }

  /** No lost flags: flags may be set at any time, by commands or otherwise. When
      some update has not begun at the last time a flag is set without an update,
      then database and file are up to date when all runs have finished. */
  lemma NoLostFlags(s0: State, events: seq<Event>, steps: seq<Step>, list: seq<Ref>)
    requires Start(s0, list) && Run(NextEvent, s0, events).Some?
    requires
      var s := Run(NextEvent, s0, events).value;
      SomeNotBegun(s, list) && Run(Next, s, steps).Some? && AllDone(Run(Next, s, steps).value)
    ensures UpToDate(Run(Next, Run(NextEvent, s0, events).value, steps).value, list)
  {
    var s := Run(NextEvent, s0, events).value;
    var u: nat :| u < |s.threads| && NotBegun(list, s.threads[u]);
    StartInv(s0, list);
    NotBegunBefore(s0, events, list, u);
    StartSyncInv(s0, list, u);
    EventsSyncInv(s0, events, list, u);
    LeftUpToDate(s, steps, list, u);
  }

  lemma {:induction false} EventsInv(s: State, events: seq<Event>, list: seq<Ref>)
    requires Serialised.Inv(s, list) && Run(NextEvent, s, events).Some?
    ensures Serialised.Inv(Run(NextEvent, s, events).value, list)
    decreases |events|
  {
    if events != [] {
      match events[0] {
        case Act(step) => Serialised.StepInv(s, step, list);
        case SetFlag(ref, flag) => FlagInv(s, ref, flag, list);
      }
      EventsInv(NextEvent(s, events[0]).value, events[1..], list);
    }
  }

  /** For one check less is enough: if some run has still to read its flag at the
      last time a flag is set without an update, the entry gets the final flag. */
  lemma NoLostFlagOf(s0: State, events: seq<Event>, steps: seq<Step>, list: seq<Ref>, k: nat)
    requires Start(s0, list) && Run(NextEvent, s0, events).Some? && k < |list|
    requires
      var s := Run(NextEvent, s0, events).value;
      SomeWillRead(s, list, k) && Run(Next, s, steps).Some? && AllDone(Run(Next, s, steps).value)
    ensures
      var s' := Run(Next, Run(NextEvent, s0, events).value, steps).value;
      && list[k] in s'.flags && list[k].id in s'.store && s'.store[list[k].id] < |s'.heap|
      && s'.heap[s'.store[list[k].id]].monitored == s'.flags[list[k]]
  {
    var s := Run(NextEvent, s0, events).value;
    StartInv(s0, list);
    EventsInv(s0, events, list);
    assert list[k] in s.checks;
    RunNotLost(s, steps, list, k);
    DoneMeansWritten(Run(Next, s, steps).value, list, k);
  }

  lemma LeftUpToDate(s: State, steps: seq<Step>, list: seq<Ref>, u: nat)
    requires SyncInv(s, list, u) && NotBegun(list, s.threads[u])
    requires Run(Next, s, steps).Some? && AllDone(Run(Next, s, steps).value)
    ensures UpToDate(Run(Next, s, steps).value, list)
  {
    RunSyncInv(s, steps, list, u);
    DoneMeansSynced(Run(Next, s, steps).value, list, u);
    AllHaveFlags(s, steps, list, u);
    OnlyListed(Run(Next, s, steps).value, list);
  }

  /** No lost updates: when all flags are set by the runs themselves, and one of
      them gets to UpdateDatabase, everything is up to date when all have finished. */
  lemma NoLostUpdates(s0: State, steps: seq<Step>, list: seq<Ref>)
    requires Start(s0, list) && SomeNotBegun(s0, list)
    requires Run(Next, s0, steps).Some? && AllDone(Run(Next, s0, steps).value)
    ensures UpToDate(Run(Next, s0, steps).value, list)
  {
    NoLostFlags(s0, [], steps, list);
  }

  // ----- failures of Serialize -----

  /** A failed open leaves the file, a failed write leaves anything in it; both keep
      the entries and the locks, and the run goes on to unlock. */
  lemma SerializeMayFail(s: State, t: nat, left: Registries.StateFile)
    requires t < |s.threads| && (s.threads[t].pc.Opening? || s.threads[t].pc.Encoding?)
    ensures
      var s' := Next(s, Fail(t, left));
      && s'.Some? && !s'.value.synced && s'.value.heap == s.heap && s'.value.store == s.store
      && s'.value.file == (if s.threads[t].pc.Opening? then s.file else left)
      && s'.value.threads == s.threads[t := s.threads[t].(pc := Unlocking)]
  {
  }

  ghost predicate SyncedOrBusy(s: State, list: seq<Ref>) {
    s.synced || SomeBusy(s, list)
  }

  lemma GoSyncedOrBusy(s: State, s': State, t: nat, list: seq<Ref>)
    requires t < |s.threads| && GoNext(s, t, s.threads[t]) == Some(s') && Framed(s, s', t)
    requires s.checks == list && EncodedBy(s, s.threads[t]) && !Busy(list, s'.threads[t])
    ensures s'.synced || (!Busy(list, s.threads[t]) && s'.synced == s.synced)
  {
    if s.threads[t].pc.Encoding? {
      EncodingNoLongerBusy(s, s', t);
    } else if s.threads[t].pc.Unlocking? {
      UnlockingNotBusy(s, s', t, list);
    } else if Begins(s.threads[t].pc) {
      BeginNoLongerBusy(s, s', t, list);
    } else if InLoop(s.threads[t].pc) {
      LoopGoesOn(s, s', t);
    } else if Sweeps(s.threads[t].pc) {
      SweepGoesOn(s, s', t);
    } else {
      SerializeGoesOn(s, s', t);
    }
  }

  lemma VisitStaysBusy(s: State, s': State, t: nat, key: string, list: seq<Ref>)
    requires t < |s.threads| && VisitNext(s, t, s.threads[t], key) == Some(s') && Framed(s, s', t)
    ensures Busy(list, s'.threads[t])
  {
  }

  lemma StepSyncedOrBusy(s: State, step: Step, list: seq<Ref>)
    requires Serialised.Inv(s, list) && FileInv(s, list) && SyncedOrBusy(s, list)
    requires Next(s, step).Some? && !step.Fail?
    ensures SyncedOrBusy(Next(s, step).value, list)
  {
    Serialised.StepInv(s, step, list);
    RunFrame(s, step);
    var s', t := Next(s, step).value, step.t;
    if step.Visit? {
      VisitStaysBusy(s, s', t, step.key, list);
    }
    if !Busy(list, s'.threads[t]) {
      GoSyncedOrBusy(s, s', t, list);
      if SomeBusy(s, list) && !Busy(list, s.threads[t]) {
        OthersBusy(s, s', t, list);
      }
    }
  }

  lemma {:induction false} RunSyncedOrBusy(s: State, steps: seq<Step>, list: seq<Ref>, u: nat)
    requires SyncInv(s, list, u) && SyncedOrBusy(s, list) && Run(Next, s, steps).Some?
    requires forall step <- steps :: !step.Fail?
    ensures SyncedOrBusy(Run(Next, s, steps).value, list)
    decreases |steps|
  {
    if steps != [] {
      assert steps[0] in steps;
      StepSyncedOrBusy(s, steps[0], list);
      assert Run(Next, s, [steps[0]]) == Run(Next, Next(s, steps[0]).value, []);
      RunSyncInv(s, [steps[0]], list, u);
      RunSyncedOrBusy(Next(s, steps[0]).value, steps[1..], list, u);
    }
  }

  /** When no Serialize fails, the file holds all entries in the end. */
  lemma WithoutFailureSynced(s0: State, steps: seq<Step>, list: seq<Ref>)
    requires Start(s0, list) && SomeNotBegun(s0, list) && forall step <- steps :: !step.Fail?
    requires Run(Next, s0, steps).Some? && AllDone(Run(Next, s0, steps).value)
    ensures
      var s := Run(Next, s0, steps).value;
      s.synced && StoreSound(s) && FileIsStore(s)
  {
    var u: nat :| u < |s0.threads| && NotBegun(list, s0.threads[u]);
    StartSyncInv(s0, list, u);
    assert SyncedOrBusy(s0, list) by {
      assert Busy(list, s0.threads[u]);
    }
    RunSyncedOrBusy(s0, steps, list, u);
    NoLostUpdates(s0, steps, list);
    DoneNotBusy(Run(Next, s0, steps).value, list);
  }

  lemma DoneNotBusy(s: State, list: seq<Ref>)
    requires AllDone(s)
    ensures !SomeBusy(s, list)
  {
    assert forall t: nat :: t < |s.threads| ==> s.threads[t] in s.threads;
  }

  // ----- the effect of commands -----

  predicate IsCommand(th: Thread, id: string) {
    th.pc.Starting? && th.id == id
  }

  lemma {:induction false} NoCommandNoSetting(threads: seq<Thread>, steps: seq<Step>, ref: Ref)
    requires forall th <- threads :: !IsCommand(th, ref.id)
    ensures LastSetting(threads, Acts(steps), ref) == None
  {
    if steps != [] {
      NoCommandNoSetting(threads, steps[..|steps| - 1], ref);
      var events := Acts(steps);
      assert events[..|events| - 1] == Acts(steps[..|steps| - 1]);
      assert forall t: nat :: t < |threads| ==> threads[t] in threads;
    }
  }

  lemma {:induction false} OnlyCommandSets(threads: seq<Thread>, steps: seq<Step>, ref: Ref, t: nat)
    requires t < |threads| && IsCommand(threads[t], ref.id)
    requires forall u: nat :: u < |threads| && IsCommand(threads[u], ref.id) ==> u == t
    ensures LastSetting(threads, Acts(steps), ref)
         == if Act(Go(t)) in Acts(steps) then Some(threads[t].flag) else None
  {
    if steps != [] {
      var events, before := Acts(steps), Acts(steps[..|steps| - 1]);
      OnlyCommandSets(threads, steps[..|steps| - 1], ref, t);
      assert events[..|events| - 1] == before && events == before + [Act(steps[|steps| - 1])];
    }
  }

  /** The flags at the end of a run of updates: without a command for a check its
      flag is the initial one; with one command it is the value of that command; and
      with several it is that of the one whose first step came last. */
  lemma CommandsDecide(s0: State, steps: seq<Step>, list: seq<Ref>, k: nat)
    requires Start(s0, list) && k < |list|
    requires Run(Next, s0, steps).Some? && AllDone(Run(Next, s0, steps).value)
    ensures
      var s, ref := Run(Next, s0, steps).value, list[k];
      && ref in s.flags && ref in s0.flags
      && (var last := LastSetting(s0.threads, Acts(steps), ref);
          s.flags[ref] == if last.Some? then last.value else s0.flags[ref])
      && ((forall th <- s0.threads :: !IsCommand(th, ref.id)) ==> s.flags[ref] == s0.flags[ref])
      && forall t: nat ::
           t < |s0.threads| && IsCommand(s0.threads[t], ref.id)
           && (forall u: nat :: u < |s0.threads| && IsCommand(s0.threads[u], ref.id) ==> u == t)
           ==> s.flags[ref] == s0.threads[t].flag
  {
    var s, ref := Run(Next, s0, steps).value, list[k];
    ActsRun(s0, steps);
    FlagIsLastSetting(s0, Acts(steps), list, k);
    if forall th <- s0.threads :: !IsCommand(th, ref.id) {
      NoCommandNoSetting(s0.threads, steps, ref);
    }
    forall t: nat | t < |s0.threads| && IsCommand(s0.threads[t], ref.id)
                    && forall u: nat :: u < |s0.threads| && IsCommand(s0.threads[u], ref.id) ==> u == t
      ensures s.flags[ref] == s0.threads[t].flag
    {
      OnlyCommandSets(s0.threads, steps, ref, t);
      CommandWasRun(s0, steps, s, t);
    }
  }

  lemma CommandWasRun(s0: State, steps: seq<Step>, s: State, t: nat)
    requires Tracks(s0.threads, Acts(steps), s) && AllDone(s) && t < |s0.threads| && s0.threads[t].pc.Starting?
    ensures Act(Go(t)) in Acts(steps)
  {
    assert TracksRun(s0.threads[t], Acts(steps), s.threads[t], t) && s.threads[t] in s.threads;
  }

  /** So when all runs have finished, one command for a check puts its value into the
      entry of the check, whatever the other runs do. */
  lemma CommandReachesEntry(s0: State, steps: seq<Step>, list: seq<Ref>, k: nat, t: nat)
    requires Start(s0, list) && k < |list| && t < |s0.threads| && IsCommand(s0.threads[t], list[k].id)
    requires forall u: nat :: u < |s0.threads| && IsCommand(s0.threads[u], list[k].id) ==> u == t
    requires Run(Next, s0, steps).Some? && AllDone(Run(Next, s0, steps).value)
    ensures
      var s := Run(Next, s0, steps).value;
      && StoreSound(s) && list[k].id in s.store && s.heap[s.store[list[k].id]].monitored == s0.threads[t].flag
      && (s.synced ==> FileIsStore(s) && s.file.saved[list[k].id] == s0.threads[t].flag)
  {
    CommandsDecide(s0, steps, list, k);
    assert NotBegun(list, s0.threads[t]);
    NoLostUpdates(s0, steps, list);
    assert list[k] in list;
  }

  lemma AllHaveFlags(s: State, steps: seq<Step>, list: seq<Ref>, u: nat)
    requires Serialised.Inv(s, list) && Run(Next, s, steps).Some? && AllDone(Run(Next, s, steps).value)
    requires u < |s.threads| && NotBegun(list, s.threads[u]) && StoreSound(Run(Next, s, steps).value)
    ensures
      var s' := Run(Next, s, steps).value;
      forall ref <- list ::
        ref in s'.flags && ref.id in s'.store && s'.heap[s'.store[ref.id]].monitored == s'.flags[ref]
  {
    var s' := Run(Next, s, steps).value;
    forall ref <- list
      ensures ref in s'.flags && ref.id in s'.store && s'.heap[s'.store[ref.id]].monitored == s'.flags[ref]
    {
      var k :| 0 <= k < |list| && list[k] == ref;
      EntriesHaveFlags(s, steps, list, u, k);
    }
  }

  lemma DoneMeansSynced(s: State, list: seq<Ref>, u: nat)
    requires SyncInv(s, list, u) && AllDone(s)
    ensures AllListed(s, list) && (s.synced ==> FileIsStore(s))
  {
    assert forall t: nat :: t < |s.threads| ==> s.threads[t] in s.threads;
    assert SweptBy(s, list, s.threads[u]);
    assert !SomeBusy(s, list);
  }

  lemma OnlyListed(s: State, list: seq<Ref>)
    requires AllListed(s, list) && InStore(s, list)
    ensures s.store.Keys == (set ref <- list :: ref.id)
  {
    forall id | id in s.store
      ensures id in (set ref <- list :: ref.id)
    {
      assert Lists(list, id);
      var i :| 0 <= i < |list| && list[i].id == id;
      assert list[i] in list;
    }
  }
}
