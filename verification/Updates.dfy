/** Concurrent runs of "set a check's flag, then UpdateDatabase"
    (monitor/monitor.go), next to at most one Reload. The entries of the database
    are objects with a lock each: a run locks the entry of every check in list
    order and unlocks them in reverse when it returns. Each access to a shared
    field is one step. */
module Updates {
  import opened Machines
  import opened Registries

  /** A check object: the load that created it and its service name. */
  datatype Ref = Ref(load: nat, id: string)

  datatype Owner = Nobody | Update(t: nat) | Reload

  datatype Entry = Entry(id: string, monitored: bool, owner: Owner)

  datatype Pc =
    | Starting
    | Ranging
    | Getting
    | Adding
    | Locking(e: nat)
    | Reading
    | Writing(flag: bool)
    | Listing
    | Deleting(keys: set<string>)
    | Opening
    | Encoding(rest: set<string>, saved: map<string, bool>)
    | Unlocking
    | Done

  /** A call of Monitor or Unmonitor, or from Ranging on of UpdateDatabase alone:
      the list it ranges over, the number of checks it is through with, and the
      entries it has locked, oldest first. */
  datatype Thread = Thread(id: string, flag: bool, list: seq<Ref>, at: nat, pc: Pc, held: seq<nat>)

  datatype LoadPc =
    | Clearing
    | Finding
    | Creating
    | Acquiring(e: nat, created: bool)
    | Copying(e: nat, created: bool)
    | Appending(e: nat)
    | Releasing(e: nat)

  /** An accepted Reload of the checks `list`; it is over when `at` reaches the end. */
  datatype Loading = Loading(list: seq<Ref>, at: nat, pc: LoadPc)

  /** `synced` says that the last Serialize had no error. */
  datatype State = State(
    heap: seq<Entry>, store: map<string, nat>, checks: seq<Ref>, flags: map<Ref, bool>,
    file: StateFile, synced: bool, threads: seq<Thread>, load: Loading)

  /** `Visit` is one round of a loop over keys, in any order; `Fail` is an error of
      opening or writing the state file, which leaves `left` in it. */
  datatype Step = Go(t: nat) | Visit(t: nat, key: string) | Fail(t: nat, left: StateFile) | Load

  function Next(s: State, step: Step): Option<State> {
    match step
    case Load => LoadNext(s)
    case Go(t) => if t < |s.threads| then GoNext(s, t, s.threads[t]) else None
    case Visit(t, key) => if t < |s.threads| then VisitNext(s, t, s.threads[t], key) else None
    case Fail(t, left) => if t < |s.threads| then FailNext(s, t, s.threads[t], left) else None
  }

  function With(s: State, t: nat, th: Thread): State
    requires t < |s.threads|
  {
    s.(threads := s.threads[t := th])
  }

  /** FindCheck: the first check of that name. */
  function FindRef(checks: seq<Ref>, id: string): (i: nat)
    ensures i <= |checks| && (i < |checks| ==> checks[i].id == id)
    ensures forall j :: 0 <= j < i ==> checks[j].id != id
  {
    if checks == [] || checks[0].id == id then 0 else 1 + FindRef(checks[1..], id)
  }

  /** FindCheck and SetMonitored; then `range m.checks`. */
  function Begin(s: State, t: nat, th: Thread): State
    requires t < |s.threads| && (th.pc.Starting? || th.pc.Ranging?)
  {
    if th.pc.Ranging? then With(s, t, th.(list := s.checks, at := 0, pc := Getting))
    else
      var i := FindRef(s.checks, th.id);
      if i == |s.checks| then With(s, t, th.(pc := Done))
      else With(s, t, th.(pc := Ranging)).(flags := s.flags[s.checks[i] := th.flag])
  }

  function GoNext(s: State, t: nat, th: Thread): Option<State>
    requires t < |s.threads|
  {
    match th.pc
    case Starting => Some(Begin(s, t, th))
    case Ranging => Some(Begin(s, t, th))
    case Getting =>
      if th.at >= |th.list| then Some(With(s, t, th.(pc := Listing)))
      else
        var id := th.list[th.at].id;
        Some(With(s, t, th.(pc := if id in s.store then Locking(s.store[id]) else Adding)))
    case Adding =>
      if th.at >= |th.list| then None
      else
        var id, e := th.list[th.at].id, |s.heap|;
        Some(With(s, t, th.(pc := Locking(e))).(heap := s.heap + [Entry(id, true, Nobody)], store := s.store[id := e]))
    case Locking(e) =>
      if e >= |s.heap| || s.heap[e].owner != Nobody then None
      else
        Some(With(s, t, th.(pc := Reading, held := th.held + [e]))
          .(heap := s.heap[e := s.heap[e].(owner := Update(t))]))
    case Reading =>
      if th.at >= |th.list| || th.list[th.at] !in s.flags then None
      else Some(With(s, t, th.(pc := Writing(s.flags[th.list[th.at]]))))
    case Writing(v) =>
      if th.held == [] || th.held[|th.held| - 1] >= |s.heap| then None
      else
        var e := th.held[|th.held| - 1];
        Some(With(s, t, th.(pc := Getting, at := th.at + 1)).(heap := s.heap[e := s.heap[e].(monitored := v)]))
    case Listing => Some(With(s, t, th.(pc := Deleting(s.store.Keys))))
    case Deleting(keys) => if keys != {} then None else Some(With(s, t, th.(pc := Opening)))
    case Opening => Some(With(s, t, th.(pc := Encoding(s.store.Keys, map[]))).(file := Empty))
    case Encoding(rest, saved) =>
      if rest != {} then None
      else Some(With(s, t, th.(pc := Unlocking)).(file := Contents(saved), synced := true))
    case Unlocking =>
      if th.held == [] then Some(With(s, t, th.(pc := Done)))
      else if th.held[|th.held| - 1] >= |s.heap| then None
      else
        var e := th.held[|th.held| - 1];
        Some(With(s, t, th.(held := th.held[..|th.held| - 1])).(heap := s.heap[e := s.heap[e].(owner := Nobody)]))
    case Done => None
  }

  /** An error of Serialize. */
  function FailNext(s: State, t: nat, th: Thread, left: StateFile): Option<State>
    requires t < |s.threads|
  {
    match th.pc
    case Opening => Some(With(s, t, th.(pc := Unlocking)).(synced := false))
    case Encoding(_, _) => Some(With(s, t, th.(pc := Unlocking)).(synced := false, file := left))
    case _ => None
  }

  predicate Lists(list: seq<Ref>, id: string) {
    exists i :: 0 <= i < |list| && list[i].id == id
  }

  /** Deletes a key that is not in the list, or encodes an entry. */
  function VisitNext(s: State, t: nat, th: Thread, key: string): Option<State>
    requires t < |s.threads|
  {
    match th.pc
    case Deleting(keys) =>
      if key !in keys then None
      else
        Some(With(s, t, th.(pc := Deleting(keys - {key})))
          .(store := if Lists(th.list, key) then s.store else s.store - {key}))
    case Encoding(rest, saved) =>
      if key !in rest then None
      else
        var present := key in s.store && s.store[key] < |s.heap|;
        var saved' := if present then saved[key := s.heap[s.store[key]].monitored] else saved;
        Some(With(s, t, th.(pc := Encoding(rest - {key}, saved'))))
    case _ => None
  }

  /** Reload: `m.checks = nil`, then AddCheck of each check of the new list, which
      holds the lock of one entry while it copies the flag. */
  function LoadNext(s: State): Option<State> {
    var l := s.load;
    match l.pc
    case Clearing => Some(s.(checks := [], load := l.(pc := Finding)))
    case Finding =>
      if l.at >= |l.list| then None
      else
        var ref := l.list[l.at];
        Some(s.(flags := s.flags[ref := true],
                load := l.(pc := if ref.id in s.store then Acquiring(s.store[ref.id], false) else Creating)))
    case Creating =>
      if l.at >= |l.list| then None
      else
        var id, e := l.list[l.at].id, |s.heap|;
        Some(s.(heap := s.heap + [Entry(id, true, Nobody)], store := s.store[id := e],
                load := l.(pc := Acquiring(e, true))))
    case Acquiring(e, created) =>
      if e >= |s.heap| || s.heap[e].owner != Nobody then None
      else Some(s.(heap := s.heap[e := s.heap[e].(owner := Reload)], load := l.(pc := Copying(e, created))))
    case Copying(e, created) =>
      if l.at >= |l.list| || e >= |s.heap| || l.list[l.at] !in s.flags then None
      else
        var ref := l.list[l.at];
        Some(if created
             then s.(heap := s.heap[e := s.heap[e].(monitored := s.flags[ref])], load := l.(pc := Appending(e)))
             else s.(flags := s.flags[ref := s.heap[e].monitored], load := l.(pc := Appending(e))))
    case Appending(e) =>
      if l.at >= |l.list| then None
      else Some(s.(checks := s.checks + [l.list[l.at]], load := l.(pc := Releasing(e))))
    case Releasing(e) =>
      if e >= |s.heap| then None
      else
        Some(s.(heap := s.heap[e := s.heap[e].(owner := Nobody)], load := l.(at := l.at + 1, pc := Finding)))
  }

  // ----- the structure of every reachable state -----

  predicate Holds(heap: seq<Entry>, t: nat, th: Thread, k: nat)
    requires k < |th.held|
  {
    && k < |th.list| && th.held[k] < |heap|
    && heap[th.held[k]].id == th.list[k].id && heap[th.held[k]].owner == Update(t)
  }

  /** How many entries a run has locked at each point. */
  predicate AtPoint(heap: seq<Entry>, th: Thread) {
    match th.pc
    case Starting => th.held == [] && th.list == []
    case Ranging => th.held == [] && th.list == []
    case Getting => |th.held| == th.at <= |th.list|
    case Adding => |th.held| == th.at < |th.list|
    case Locking(e) => |th.held| == th.at < |th.list| && e < |heap| && heap[e].id == th.list[th.at].id
    case Reading => |th.held| == th.at + 1 <= |th.list|
    case Writing(_) => |th.held| == th.at + 1 <= |th.list|
    case Unlocking => true
    case Done => th.held == []
    case _ => |th.held| == |th.list|
  }

  predicate Sound(heap: seq<Entry>, t: nat, th: Thread) {
    && AtPoint(heap, th)
    && (forall k :: 0 <= k < |th.held| ==> Holds(heap, t, th, k))
    && (forall j, k :: 0 <= j < k < |th.held| ==> th.held[j] != th.held[k])
  }

  predicate LoadSound(heap: seq<Entry>, l: Loading) {
    match l.pc
    case Creating => l.at < |l.list|
    case Acquiring(e, _) => l.at < |l.list| && e < |heap|
    case Copying(e, _) => l.at < |l.list| && e < |heap| && heap[e].owner == Reload
    case Appending(e) => l.at < |l.list| && e < |heap| && heap[e].owner == Reload
    case Releasing(e) => l.at < |l.list| && e < |heap| && heap[e].owner == Reload
    case _ => true
  }

  predicate LoadHolds(l: Loading, e: nat) {
    match l.pc
    case Copying(f, _) => e == f
    case Appending(f) => e == f
    case Releasing(f) => e == f
    case _ => false
  }

  predicate OwnerKnows(s: State, e: nat)
    requires e < |s.heap|
  {
    match s.heap[e].owner
    case Nobody => true
    case Update(t) => t < |s.threads| && e in s.threads[t].held
    case Reload => LoadHolds(s.load, e)
  }

  predicate StoreSound(s: State) {
    forall id <- s.store :: s.store[id] < |s.heap| && s.heap[s.store[id]].id == id
  }

  ghost predicate Structured(s: State) {
    && (forall t :: 0 <= t < |s.threads| ==> Sound(s.heap, t, s.threads[t]))
    && LoadSound(s.heap, s.load)
    && (forall e :: 0 <= e < |s.heap| ==> OwnerKnows(s, e))
    && StoreSound(s)
  }

  /** The change of entries that one step of `who` can make: it may add entries,
      and it may take free locks and release its own. */
  ghost predicate ChangedBy(heap: seq<Entry>, heap': seq<Entry>, who: Owner) {
    && |heap| <= |heap'|
    && forall e :: 0 <= e < |heap| ==>
      && heap'[e].id == heap[e].id
      && (heap'[e].owner == heap[e].owner
          || (heap[e].owner == Nobody && heap'[e].owner == who)
          || (heap[e].owner == who && heap'[e].owner == Nobody))
  }

  lemma OthersStaySound(heap: seq<Entry>, heap': seq<Entry>, who: Owner, u: nat, th: Thread)
    requires ChangedBy(heap, heap', who) && who != Update(u) && who != Nobody
    requires Sound(heap, u, th)
    ensures Sound(heap', u, th)
  {
    forall k | 0 <= k < |th.held|
      ensures Holds(heap', u, th, k)
    {
      assert Holds(heap, u, th, k);
    }
  }

  /** A step of a run keeps the structure when it keeps that run sound and the
      owners of the entries known. */
  lemma StructuredAfter(s: State, s': State, t: nat)
    requires Structured(s) && t < |s.threads|
    requires |s'.threads| == |s.threads| && s'.threads == s.threads[t := s'.threads[t]] && s'.load == s.load
    requires ChangedBy(s.heap, s'.heap, Update(t))
    requires Sound(s'.heap, t, s'.threads[t])
    requires forall e :: 0 <= e < |s'.heap| && (e >= |s.heap| || s'.heap[e].owner != s.heap[e].owner) ==>
      OwnerKnows(s', e)
    requires forall e <- s.threads[t].held :: e < |s'.heap| && s'.heap[e].owner == Update(t) ==> e in s'.threads[t].held
    requires StoreSound(s')
    ensures Structured(s')
  {
    forall u | 0 <= u < |s'.threads|
      ensures Sound(s'.heap, u, s'.threads[u])
    {
      if u != t {
        assert Sound(s.heap, u, s.threads[u]);
        OthersStaySound(s.heap, s'.heap, Update(t), u, s.threads[u]);
      }
    }
    forall e | 0 <= e < |s'.heap|
      ensures OwnerKnows(s', e)
    {
      if e < |s.heap| {
        assert OwnerKnows(s, e);
      }
    }
  }

  lemma BeginStructured(s: State, t: nat)
    requires Structured(s) && t < |s.threads|
    requires s.threads[t].pc.Starting? || s.threads[t].pc.Ranging?
    ensures Structured(Begin(s, t, s.threads[t]))
  {
    assert Sound(s.heap, t, s.threads[t]);
    StructuredAfter(s, Begin(s, t, s.threads[t]), t);
  }

  /** A step that changes neither the entries nor what the run has locked. */
  lemma QuietStructured(s: State, s': State, t: nat)
    requires Structured(s) && t < |s.threads|
    requires s'.heap == s.heap && s'.load == s.load
    requires |s'.threads| == |s.threads| && s'.threads == s.threads[t := s'.threads[t]]
    requires s'.threads[t].held == s.threads[t].held && s'.threads[t].list == s.threads[t].list
    requires AtPoint(s.heap, s'.threads[t]) && StoreSound(s')
    ensures Structured(s')
  {
    var th, th' := s.threads[t], s'.threads[t];
    assert Sound(s.heap, t, th);
    forall k | 0 <= k < |th'.held|
      ensures Holds(s'.heap, t, th', k)
    {
      assert Holds(s.heap, t, th, k);
    }
    StructuredAfter(s, s', t);
  }

  lemma AddingStructured(s: State, t: nat)
    requires Structured(s) && t < |s.threads| && s.threads[t].pc.Adding? && GoNext(s, t, s.threads[t]).Some?
    ensures Structured(GoNext(s, t, s.threads[t]).value)
  {
    var th, s' := s.threads[t], GoNext(s, t, s.threads[t]).value;
    assert Sound(s.heap, t, th);
    forall k | 0 <= k < |th.held|
      ensures Holds(s'.heap, t, s'.threads[t], k)
    {
      assert Holds(s.heap, t, th, k);
    }
    StructuredAfter(s, s', t);
  }

  lemma LockingStructured(s: State, t: nat)
    requires Structured(s) && t < |s.threads| && s.threads[t].pc.Locking? && GoNext(s, t, s.threads[t]).Some?
    ensures Structured(GoNext(s, t, s.threads[t]).value)
  {
    var th, s' := s.threads[t], GoNext(s, t, s.threads[t]).value;
    var th' := s'.threads[t];
    assert Sound(s.heap, t, th);
    forall k | 0 <= k < |th'.held|
      ensures Holds(s'.heap, t, th', k)
    {
      if k < |th.held| {
        assert Holds(s.heap, t, th, k);
      }
    }
    forall j, k | 0 <= j < k < |th'.held|
      ensures th'.held[j] != th'.held[k]
    {
      assert Holds(s.heap, t, th, j);
    }
    StructuredAfter(s, s', t);
  }

  lemma WritingStructured(s: State, t: nat)
    requires Structured(s) && t < |s.threads| && s.threads[t].pc.Writing? && GoNext(s, t, s.threads[t]).Some?
    ensures Structured(GoNext(s, t, s.threads[t]).value)
  {
    var th, s' := s.threads[t], GoNext(s, t, s.threads[t]).value;
    assert Sound(s.heap, t, th);
    forall k | 0 <= k < |th.held|
      ensures Holds(s'.heap, t, s'.threads[t], k)
    {
      assert Holds(s.heap, t, th, k);
    }
    StructuredAfter(s, s', t);
  }

  lemma UnlockingStructured(s: State, t: nat)
    requires Structured(s) && t < |s.threads| && s.threads[t].pc.Unlocking? && GoNext(s, t, s.threads[t]).Some?
    ensures Structured(GoNext(s, t, s.threads[t]).value)
  {
    var th, s' := s.threads[t], GoNext(s, t, s.threads[t]).value;
    assert Sound(s.heap, t, th);
    if th.held == [] {
      QuietStructured(s, s', t);
    } else {
      StillSound(s, s', t);
      assert Holds(s.heap, t, th, |th.held| - 1);
      StructuredAfter(s, s', t);
    }
  }

  /** A run that has released its last lock holds the others. */
  lemma StillSound(s: State, s': State, t: nat)
    requires t < |s.threads| && s.threads[t].pc.Unlocking? && s.threads[t].held != []
    requires GoNext(s, t, s.threads[t]) == Some(s') && Sound(s.heap, t, s.threads[t])
    ensures t < |s'.threads| && Sound(s'.heap, t, s'.threads[t])
  {
    var th := s.threads[t];
    forall k | 0 <= k < |th.held| - 1
      ensures Holds(s'.heap, t, s'.threads[t], k)
    {
      assert Holds(s.heap, t, th, k);
    }
  }

  lemma PlainStructured(s: State, t: nat)
    requires Structured(s) && t < |s.threads| && GoNext(s, t, s.threads[t]).Some?
    requires
      var pc := s.threads[t].pc;
      pc.Getting? || pc.Reading? || pc.Listing? || pc.Deleting? || pc.Opening? || pc.Encoding?
    ensures Structured(GoNext(s, t, s.threads[t]).value)
  {
    assert Sound(s.heap, t, s.threads[t]);
    QuietStructured(s, GoNext(s, t, s.threads[t]).value, t);
  }

  lemma GoStructured(s: State, t: nat)
    requires Structured(s) && t < |s.threads| && GoNext(s, t, s.threads[t]).Some?
    ensures Structured(GoNext(s, t, s.threads[t]).value)
  {
    var pc := s.threads[t].pc;
    if pc.Starting? || pc.Ranging? {
      BeginStructured(s, t);
    } else if pc.Adding? {
      AddingStructured(s, t);
    } else if pc.Locking? {
      LockingStructured(s, t);
    } else if pc.Writing? {
      WritingStructured(s, t);
    } else if pc.Unlocking? {
      UnlockingStructured(s, t);
    } else {
      PlainStructured(s, t);
    }
  }

  lemma OtherStepStructured(s: State, step: Step)
    requires Structured(s) && (step.Visit? || step.Fail?) && Next(s, step).Some?
    ensures Structured(Next(s, step).value)
  {
    assert Sound(s.heap, step.t, s.threads[step.t]);
    QuietStructured(s, Next(s, step).value, step.t);
  }

  lemma LoadStructuredAfter(s: State, s': State)
    requires Structured(s) && s'.threads == s.threads
    requires ChangedBy(s.heap, s'.heap, Reload) && LoadSound(s'.heap, s'.load)
    requires forall e :: 0 <= e < |s'.heap| && (e >= |s.heap| || s'.heap[e].owner != s.heap[e].owner) ==>
      OwnerKnows(s', e)
    requires forall e: nat :: e < |s'.heap| && LoadHolds(s.load, e) && s'.heap[e].owner == Reload ==>
      LoadHolds(s'.load, e)
    requires StoreSound(s')
    ensures Structured(s')
  {
    forall u | 0 <= u < |s'.threads|
      ensures Sound(s'.heap, u, s'.threads[u])
    {
      OthersStaySound(s.heap, s'.heap, Reload, u, s.threads[u]);
    }
    forall e | 0 <= e < |s'.heap|
      ensures OwnerKnows(s', e)
    {
      assert e < |s.heap| ==> OwnerKnows(s, e);
    }
  }

  lemma LoadWritesStructured(s: State)
    requires Structured(s) && LoadNext(s).Some? && (s.load.pc.Creating? || s.load.pc.Copying?)
    ensures Structured(LoadNext(s).value)
  {
    LoadStructuredAfter(s, LoadNext(s).value);
  }

  lemma LoadLocksStructured(s: State)
    requires Structured(s) && LoadNext(s).Some? && (s.load.pc.Acquiring? || s.load.pc.Releasing?)
    ensures Structured(LoadNext(s).value)
  {
    LoadStructuredAfter(s, LoadNext(s).value);
  }

  lemma LoadStructured(s: State)
    requires Structured(s) && LoadNext(s).Some?
    ensures Structured(LoadNext(s).value)
  {
    var s', pc := LoadNext(s).value, s.load.pc;
    if pc.Creating? || pc.Copying? {
      LoadWritesStructured(s);
    } else if pc.Acquiring? || pc.Releasing? {
      LoadLocksStructured(s);
    } else {
      LoadStructuredAfter(s, s');
    }
  }

  /** What a step of run `t` leaves alone. */
  predicate Framed(s: State, s': State, t: nat) {
    && t < |s.threads| == |s'.threads| && s'.threads == s.threads[t := s'.threads[t]]
    && s'.threads[t].list == (if s.threads[t].pc.Ranging? then s.checks else s.threads[t].list)
    && s'.threads[t].id == s.threads[t].id && s'.threads[t].flag == s.threads[t].flag
    && s'.load == s.load && s'.checks == s.checks
    && |s'.heap| >= |s.heap|
    && (if s.threads[t].pc.Starting? then s'.flags.Keys >= s.flags.Keys else s'.flags == s.flags)
  }

  predicate InLoop(pc: Pc) {
    pc.Getting? || pc.Adding? || pc.Locking? || pc.Reading? || pc.Writing?
  }

  lemma LoopFrame(s: State, t: nat)
    requires t < |s.threads| && InLoop(s.threads[t].pc) && GoNext(s, t, s.threads[t]).Some?
    ensures Framed(s, GoNext(s, t, s.threads[t]).value, t)
  {
  }

  lemma BeginFrame(s: State, t: nat)
    requires t < |s.threads| && (s.threads[t].pc.Starting? || s.threads[t].pc.Ranging?)
    ensures Framed(s, Begin(s, t, s.threads[t]), t)
  {
  }

  lemma SweepFrame(s: State, t: nat)
    requires t < |s.threads| && (s.threads[t].pc.Listing? || s.threads[t].pc.Deleting?)
    requires GoNext(s, t, s.threads[t]).Some?
    ensures Framed(s, GoNext(s, t, s.threads[t]).value, t)
  {
  }

  lemma SerializeFrame(s: State, t: nat)
    requires t < |s.threads| && (s.threads[t].pc.Opening? || s.threads[t].pc.Encoding?)
    requires GoNext(s, t, s.threads[t]).Some?
    ensures Framed(s, GoNext(s, t, s.threads[t]).value, t)
  {
  }

  lemma UnlockingFrame(s: State, t: nat)
    requires t < |s.threads| && s.threads[t].pc.Unlocking? && GoNext(s, t, s.threads[t]).Some?
    ensures Framed(s, GoNext(s, t, s.threads[t]).value, t)
  {
  }

  lemma GoFrame(s: State, t: nat)
    requires t < |s.threads| && GoNext(s, t, s.threads[t]).Some?
    ensures Framed(s, GoNext(s, t, s.threads[t]).value, t)
  {
    if InLoop(s.threads[t].pc) {
      LoopFrame(s, t);
    } else if s.threads[t].pc.Starting? || s.threads[t].pc.Ranging? {
      BeginFrame(s, t);
    } else if s.threads[t].pc.Unlocking? {
      UnlockingFrame(s, t);
    } else if s.threads[t].pc.Listing? || s.threads[t].pc.Deleting? {
      SweepFrame(s, t);
    } else {
      SerializeFrame(s, t);
    }
  }

  lemma VisitFrame(s: State, t: nat, key: string)
    requires t < |s.threads| && VisitNext(s, t, s.threads[t], key).Some?
    ensures Framed(s, VisitNext(s, t, s.threads[t], key).value, t)
  {
  }

  lemma FailFrame(s: State, t: nat, left: StateFile)
    requires t < |s.threads| && FailNext(s, t, s.threads[t], left).Some?
    ensures Framed(s, FailNext(s, t, s.threads[t], left).value, t)
  {
  }

  lemma RunFrame(s: State, step: Step)
    requires !step.Load? && Next(s, step).Some?
    ensures Framed(s, Next(s, step).value, step.t)
  {
    match step
    case Go(t) => GoFrame(s, t);
    case Visit(t, key) => VisitFrame(s, t, key);
    case Fail(t, left) => FailFrame(s, t, left);
  }

  // ----- the order of the points of a run -----

  predicate Begins(pc: Pc) {
    pc.Starting? || pc.Ranging?
  }

  predicate Sweeps(pc: Pc) {
    pc.Listing? || pc.Deleting?
  }

  predicate Serializes(pc: Pc) {
    pc.Opening? || pc.Encoding?
  }

  lemma BeginGoesOn(s: State, s': State, t: nat)
    requires t < |s.threads| && Begins(s.threads[t].pc) && GoNext(s, t, s.threads[t]) == Some(s')
    ensures |s'.threads| == |s.threads|
    ensures
      || s'.threads[t].pc.Getting?
      || (s.threads[t].pc.Starting? && (s'.threads[t].pc.Ranging? || s'.threads[t].pc.Done?))
  {
  }

  lemma LoopGoesOn(s: State, s': State, t: nat)
    requires t < |s.threads| && InLoop(s.threads[t].pc) && GoNext(s, t, s.threads[t]) == Some(s')
    ensures |s'.threads| == |s.threads| && (InLoop(s'.threads[t].pc) || s'.threads[t].pc.Listing?)
  {
  }

  lemma SweepGoesOn(s: State, s': State, t: nat)
    requires t < |s.threads| && Sweeps(s.threads[t].pc) && GoNext(s, t, s.threads[t]) == Some(s')
    ensures |s'.threads| == |s.threads| && (s'.threads[t].pc.Deleting? || s'.threads[t].pc.Opening?)
  {
  }

  lemma SerializeGoesOn(s: State, s': State, t: nat)
    requires t < |s.threads| && Serializes(s.threads[t].pc) && GoNext(s, t, s.threads[t]) == Some(s')
    ensures |s'.threads| == |s.threads|
    ensures if s.threads[t].pc.Opening? then s'.threads[t].pc.Encoding? else s'.threads[t].pc.Unlocking?
  {
  }

  lemma UnlockingGoesOn(s: State, s': State, t: nat)
    requires t < |s.threads| && s.threads[t].pc.Unlocking? && GoNext(s, t, s.threads[t]) == Some(s')
    ensures |s'.threads| == |s.threads| && (s'.threads[t].pc.Unlocking? || s'.threads[t].pc.Done?)
  {
  }

  /** A run that has begun never comes back to its beginning. */
  lemma BegunGoesOn(s: State, s': State, t: nat)
    requires t < |s.threads| && !Begins(s.threads[t].pc) && GoNext(s, t, s.threads[t]) == Some(s')
    ensures |s'.threads| == |s.threads| && !Begins(s'.threads[t].pc)
    ensures InLoop(s'.threads[t].pc) ==> InLoop(s.threads[t].pc)
  {
    var pc := s.threads[t].pc;
    if InLoop(pc) {
      LoopGoesOn(s, s', t);
    } else if Sweeps(pc) {
      SweepGoesOn(s, s', t);
    } else if Serializes(pc) {
      SerializeGoesOn(s, s', t);
    } else {
      UnlockingGoesOn(s, s', t);
    }
  }

  lemma StepStructured(s: State, step: Step)
    requires Structured(s) && Next(s, step).Some?
    ensures Structured(Next(s, step).value)
  {
    match step
    case Load => LoadStructured(s);
    case Go(t) => GoStructured(s, t);
    case Visit(_, _) => OtherStepStructured(s, step);
    case Fail(_, _) => OtherStepStructured(s, step);
  }
}
