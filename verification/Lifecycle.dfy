/** The registry over the life of the monitor: start-up (`New`), commands, and
    `Reload` (monitor/monitor.go), in terms of the parser and the registry. */
module Lifecycle {
  import opened Machines
  import opened Registries
  import opened Loader

  /** New: the registry loaded from a state file and, unless its name is empty, a
      control file. */
  function Boot(env: Env, control: string, file: StateFile, named: bool): (Registry, Outcome)
    requires Acyclic(env)
  {
    if control == "" then (Opened(file, named), Done)
    else
      var (w, o) := ParseFile(env, control, Live(Opened(file, named)));
      (if w.Live? then w.reg else Opened(file, named), o)
  }

  /** The validator's run over a control file. */
  function Validation(env: Env, control: string): Walker
    requires Acyclic(env)
  {
    ParseFile(env, control, Dry([], true)).0
  }

  /** Reload: validate, then either register what the validator collected in place
      of the old checks or change nothing. The outcome of the parse is ignored. */
  function Reload(r: Registry, env: Env, control: string): (Registry, bool)
    requires Acyclic(env)
  {
    var v := Validation(env, control);
    if v.Dry? && v.success then (AddAll(r.(checks := []), v.ids), true) else (r, false)
  }

  lemma BootIsLive(env: Env, control: string, file: StateFile, named: bool)
    requires Acyclic(env)
    ensures ParseFile(env, control, Live(Opened(file, named))).0 == Live(Boot(env, control, file, named).0)
    ensures Invariant(Boot(env, control, file, named).0)
    ensures RestoredFrom(Boot(env, control, file, named).0, Deserialize(file))
  {
    FileKeepsLive(env, control, Live(Opened(file, named)), Deserialize(file));
  }

  /** The live load and the validation of the same files agree on the ids and, when
      there is a control file, on the outcome. */
  lemma BootMatchesValidation(env: Env, control: string, file: StateFile, named: bool)
    requires Acyclic(env)
    ensures
      var v := ParseFile(env, control, Dry([], true));
      && v.0.Dry? && Ids(Boot(env, control, file, named).0) == v.0.ids
      && Boot(env, control, file, named).1 == if control == "" then Done else v.1
  {
    BootIsLive(env, control, file, named);
    FileInLockstep(env, control, Live(Opened(file, named)), Dry([], true));
  }

  /** Reload is all or nothing: it is refused exactly when the files declare an id
      twice, and then nothing changes; otherwise the checks are the declared ones. */
  lemma ReloadAllOrNothing(r: Registry, env: Env, control: string)
    requires Acyclic(env) && Invariant(r)
    ensures
      var (r', accepted) := Reload(r, env, control);
      var declared := DeclaredInFile(env, control);
      && (accepted <==> Unique(declared))
      && (!accepted ==> r' == r)
      && (accepted ==> Ids(r') == declared && r.saved.Keys <= r'.saved.Keys && r'.file == r.file)
      && Invariant(r')
  {
    FileValidated(env, control, [], true);
    var v := Validation(env, control);
    assert [] + DeclaredInFile(env, control) == DeclaredInFile(env, control);
    if v.success {
      var cleared := r.(checks := []);
      assert Ids(cleared) + v.ids == v.ids;
      AddAllUnique(cleared, v.ids);
      AddAllKeepsInvariant(cleared, v.ids);
      AddAllKeepsEntries(cleared, v.ids);
    }
  }

  /** The control file cannot be read, or one of its own directives is a bad include
      pattern or a malformed check. */
  predicate FaultyFile(env: Env, control: string) {
    control != "" && (!IsReadable(env, control) || HasFault(env, DirectivesOf(env, control)))
  }

  /** Start-up reports an error but a Reload of the same files is accepted exactly
      when the declared ids do not repeat and the control file itself is faulty;
      faults of included files never count. An unreadable control file unregisters
      every check. */
  lemma AcceptedDespiteError(r: Registry, env: Env, control: string, file: StateFile, named: bool)
    requires Acyclic(env) && Invariant(r)
    ensures Boot(env, control, file, named).1 != Done && Reload(r, env, control).1
       <==> Unique(DeclaredInFile(env, control)) && FaultyFile(env, control)
    ensures !IsReadable(env, control) ==> Reload(r, env, control) == (r.(checks := []), true)
  {
    ReloadAllOrNothing(r, env, control);
    BootMatchesValidation(env, control, file, named);
    if IsReadable(env, control) {
      if Unique(DeclaredInFile(env, control)) {
        assert [] + DeclaredInFile(env, control) == DeclaredInFile(env, control);
        DoneIffNoFault(env, DirectivesOf(env, control), [], RankOf(env, control));
      }
    } else {
      assert Validation(env, control) == Dry([], true);
    }
  }

  lemma {:induction false} AddAllKeepsEntries(r: Registry, ids: seq<string>)
    ensures r.saved.Keys <= AddAll(r, ids).saved.Keys && AddAll(r, ids).file == r.file
    decreases |ids|
  {
    if ids != [] {
      AddAllKeepsEntries(Add(r, ids[0]).0, ids[1..]);
    }
  }

  /** Reloading unchanged files never changes the list of ids, whether it was read
      at start-up or by an earlier reload, and whether or not it is refused. */
  lemma ReloadIsStable(r: Registry, before: Registry, env: Env, control: string, file: StateFile, named: bool)
    requires Acyclic(env) && Invariant(r) && Invariant(before)
    requires
      || Ids(r) == Ids(Boot(env, control, file, named).0)
      || (Reload(before, env, control).1 && Ids(r) == Ids(Reload(before, env, control).0))
    ensures Ids(Reload(r, env, control).0) == Ids(r)
  {
    ReloadAllOrNothing(r, env, control);
    ReloadAllOrNothing(before, env, control);
    BootMatchesValidation(env, control, file, named);
    FileValidated(env, control, [], true);
    assert [] + DeclaredInFile(env, control) == DeclaredInFile(env, control);
  }

  // ----- persistence -----

  /** After an update that was written, a restart with any configuration gives each
      id the flag it had, and monitored to each id that was not registered. */
  lemma RestartRestores(r: Registry, save: Save, env: Env, control: string)
    requires Acyclic(env) && Invariant(r) && Update(r, save).1
    ensures
      var b := Boot(env, control, Update(r, save).0.file, r.named).0;
      && forall c <- b.checks :: c.flag == Lookup(FlagsOf(r.checks), c.id)
  {
    UpdateSynchronises(r, save);
    BootIsLive(env, control, Update(r, save).0.file, r.named);
  }

  /** A reload right after an update does the same, even when the write failed. */
  lemma ReloadRestores(r: Registry, save: Save, env: Env, control: string)
    requires Acyclic(env) && Invariant(r)
    requires Reload(Update(r, save).0, env, control).1
    ensures
      var r' := Reload(Update(r, save).0, env, control).0;
      && forall c <- r'.checks :: c.flag == Lookup(FlagsOf(r.checks), c.id)
  {
    var cleared := Update(r, save).0.(checks := []);
    AddAllRestores(cleared, Validation(env, control).ids, FlagsOf(r.checks));
  }

  /** Without a readable, well-formed, non-empty state file everything starts monitored. */
  lemma UnusableFileMonitorsAll(env: Env, control: string, file: StateFile, named: bool)
    requires Acyclic(env) && !file.Contents?
    ensures forall c <- Boot(env, control, file, named).0.checks :: c.flag
  {
    BootIsLive(env, control, file, named);
  }

  // ----- any sequence of commands -----

  datatype Command =
    | AddCheck(id: string)
    | ReloadFrom(env: Env, control: string)
    | SetById(id: string, flag: bool, save: Save)
    | SetAll(flag: bool, saves: seq<Save>)
    | UpdateDatabase(save: Save)
    | Flip(i: nat, flag: bool)  // Perform or a goroutine sets a flag

  function Next(r: Registry, c: Command): Option<Registry> {
    match c
    case AddCheck(id) => Some(Add(r, id).0)
    case ReloadFrom(env, control) => if Acyclic(env) then Some(Reload(r, env, control).0) else None
    case SetById(id, flag, save) => Some(SetMonitored(r, id, flag, save).0)
    case SetAll(flag, saves) =>
      if |saves| == |r.checks| then Some(SetMonitoredFrom(r, 0, flag, saves).0) else None
    case UpdateDatabase(save) => Some(Update(r, save).0)
    case Flip(i, flag) => if i < |r.checks| then Some(SetFlag(r, i, flag)) else None
  }

  lemma CommandKeepsInvariant(r: Registry, c: Command)
    requires Invariant(r) && Next(r, c).Some?
    ensures Invariant(Next(r, c).value)
  {
    match c
    case AddCheck(id) => AddKeepsInvariant(r, id);
    case ReloadFrom(env, control) => ReloadAllOrNothing(r, env, control);
    case SetById(id, flag, save) =>
      var i := Find(r, id);
      if i < |r.checks| {
        SetMonitoredAtSpec(r, i, flag, save);
      }
    case SetAll(flag, saves) => SetMonitoredFromSpec(r, 0, flag, saves);
    case UpdateDatabase(save) => UpdateSynchronises(r, save);
    case Flip(i, flag) => SetFlagKeepsIds(r, i, flag);
  }

  /** From start-up on, after any commands: ids are unique and every registered
      check has a database entry. */
  lemma InvariantAlways(env: Env, control: string, file: StateFile, named: bool, commands: seq<Command>)
    requires Acyclic(env) && Run(Next, Boot(env, control, file, named).0, commands).Some?
    ensures Invariant(Run(Next, Boot(env, control, file, named).0, commands).value)
  {
    BootIsLive(env, control, file, named);
    forall r: Registry, c: Command | Invariant(r) && Next(r, c).Some?
      ensures Invariant(Next(r, c).value)
    {
      CommandKeepsInvariant(r, c);
    }
    RunKeeps(Next, Invariant, Boot(env, control, file, named).0, commands);
  }

  // ----- what commands leave behind -----

  /** The ids, the flag of each check and the flag of each entry. */
  datatype Memory = Memory(ids: seq<string>, flags: map<string, bool>, saved: map<string, bool>)

  function MemoryOf(r: Registry): Memory {
    Memory(Ids(r), FlagsOf(r.checks), r.saved)
  }

  /** Each of `ids` with its saved flag, or monitored. */
  function Recalled(saved: map<string, bool>, ids: seq<string>): map<string, bool> {
    map id | id in ids :: Lookup(saved, id)
  }

  /** What a command means. */
  function Effect(m: Memory, c: Command): Memory {
    match c
    case AddCheck(id) =>
      if id in m.ids then m
      else
        var flag := Lookup(m.saved, id);
        Memory(m.ids + [id], m.flags[id := flag], m.saved[id := flag])
    case ReloadFrom(env, control) =>
      if Acyclic(env) && Unique(DeclaredInFile(env, control)) then
        var flags := Recalled(m.saved, DeclaredInFile(env, control));
        Memory(DeclaredInFile(env, control), flags, m.saved + flags)
      else m
    case SetById(id, flag, _) =>
      if id in m.ids then m.(flags := m.flags[id := flag], saved := m.flags[id := flag]) else m
    case SetAll(flag, _) =>
      if m.ids == [] then m
      else m.(flags := map id | id in m.ids :: flag, saved := map id | id in m.ids :: flag)
    case UpdateDatabase(_) => m.(saved := m.flags)
    case Flip(i, flag) => if i < |m.ids| then m.(flags := m.flags[m.ids[i] := flag]) else m
  }

  function Effects(m: Memory, commands: seq<Command>): Memory
    decreases |commands|
  {
    if commands == [] then m else Effects(Effect(m, commands[0]), commands[1..])
  }

  predicate FlagsAt(checks: seq<CheckView>, flags: map<string, bool>) {
    forall i :: 0 <= i < |checks| ==> checks[i].id in flags && flags[checks[i].id] == checks[i].flag
  }

  predicate KeysAre(ids: seq<string>, flags: map<string, bool>) {
    flags.Keys == set id <- ids
  }

  lemma FlagsUnique(checks: seq<CheckView>, ids: seq<string>, a: map<string, bool>, b: map<string, bool>)
    requires |ids| == |checks| && forall i :: 0 <= i < |ids| ==> ids[i] == checks[i].id
    requires KeysAre(ids, a) && KeysAre(ids, b) && FlagsAt(checks, a) && FlagsAt(checks, b)
    ensures a == b
  {
    forall id <- a
      ensures a[id] == b[id]
    {
      var i :| 0 <= i < |ids| && ids[i] == id;
      assert checks[i].id == id;
    }
  }

  lemma FlagsOfAre(checks: seq<CheckView>)
    requires Unique(IdsOf(checks))
    ensures KeysAre(IdsOf(checks), FlagsOf(checks)) && FlagsAt(checks, FlagsOf(checks))
  {
    FlagsOfChecks(checks);
  }

  lemma FlagsAtSet(checks: seq<CheckView>, ids: seq<string>, flags: map<string, bool>, i: nat, flag: bool)
    requires |ids| == |checks| && forall j :: 0 <= j < |ids| ==> ids[j] == checks[j].id
    requires Unique(ids) && i < |checks| && FlagsAt(checks, flags) && KeysAre(ids, flags)
    ensures FlagsAt(WithFlag(checks, i, flag), flags[ids[i] := flag]) && KeysAre(ids, flags[ids[i] := flag])
  {
  }

  lemma AddMeans(r: Registry, id: string)
    requires id !in Ids(r)
    ensures FlagsOf(Add(r, id).0.checks) == FlagsOf(r.checks)[id := Lookup(r.saved, id)]
    ensures Ids(Add(r, id).0) == Ids(r) + [id]
  {
    var c := CheckView(id, Lookup(r.saved, id));
    IdsAppend(r.checks, c);
    assert (r.checks + [c])[..|r.checks|] == r.checks;
  }

  lemma RecallFirst(saved: map<string, bool>, id: string, rest: seq<string>)
    requires id !in rest
    ensures Recalled(saved, [id] + rest)
         == map[id := Lookup(saved, id)] + Recalled(saved[id := Lookup(saved, id)], rest)
  {
  }

  lemma FirstIsNotLater(a: seq<string>, b: seq<string>)
    requires Unique(a + b) && b != []
    ensures b[0] !in b[1..]
  {
    var all := a + b;
    assert forall i :: 0 < i < |b| ==> all[|a| + i] == b[i] && all[|a|] == b[0];
  }

  lemma AddFirst(r: Registry, ids: seq<string>)
    requires Invariant(r) && ids != [] && Unique(Ids(r) + ids)
    ensures Invariant(Add(r, ids[0]).0) && Unique(Ids(Add(r, ids[0]).0) + ids[1..])
    ensures ids[0] !in Ids(r) && ids[0] !in ids[1..]
  {
    FirstIsNew(Ids(r), ids);
    FirstIsNotLater(Ids(r), ids);
    AddKeepsInvariant(r, ids[0]);
    assert Ids(r) + [ids[0]] + ids[1..] == Ids(r) + ids;
  }

  lemma AddThenRecall(m: map<string, bool>, saved: map<string, bool>, ids: seq<string>)
    requires ids != [] && ids[0] !in ids[1..]
    ensures
      var flag := Lookup(saved, ids[0]);
      m[ids[0] := flag] + Recalled(saved[ids[0] := flag], ids[1..]) == m + Recalled(saved, ids)
  {
    assert ids == [ids[0]] + ids[1..];
    RecallFirst(saved, ids[0], ids[1..]);
  }

  lemma {:induction false} AddAllMeans(r: Registry, ids: seq<string>)
    requires Invariant(r) && Unique(Ids(r) + ids)
    ensures AddAll(r, ids).saved == r.saved + Recalled(r.saved, ids)
    ensures FlagsOf(AddAll(r, ids).checks) == FlagsOf(r.checks) + Recalled(r.saved, ids)
    decreases |ids|
  {
    if ids != [] {
      AddFirst(r, ids);
      AddMeans(r, ids[0]);
      AddAllMeans(Add(r, ids[0]).0, ids[1..]);
      AddThenRecall(r.saved, r.saved, ids);
      AddThenRecall(FlagsOf(r.checks), r.saved, ids);
    }
  }

  lemma LoadMeans(r: Registry, ids: seq<string>)
    requires r.checks == [] && Unique(ids)
    ensures FlagsOf(AddAll(r, ids).checks) == Recalled(r.saved, ids)
    ensures AddAll(r, ids).saved == r.saved + Recalled(r.saved, ids)
  {
    assert Ids(r) + ids == ids;
    AddAllMeans(r, ids);
  }

  lemma ReloadMeans(r: Registry, env: Env, control: string)
    requires Acyclic(env) && Invariant(r) && Unique(DeclaredInFile(env, control))
    ensures
      var (r', ids) := (Reload(r, env, control).0, DeclaredInFile(env, control));
      && Ids(r') == ids && FlagsOf(r'.checks) == Recalled(r.saved, ids)
      && r'.saved == r.saved + Recalled(r.saved, ids)
  {
    ReloadAllOrNothing(r, env, control);
    FileValidated(env, control, [], true);
    assert [] + DeclaredInFile(env, control) == DeclaredInFile(env, control);
    LoadMeans(r.(checks := []), DeclaredInFile(env, control));
  }

  lemma SetMeans(r: Registry, i: nat, flag: bool)
    requires Invariant(r) && i < |r.checks|
    ensures FlagsOf(SetFlag(r, i, flag).checks) == FlagsOf(r.checks)[Ids(r)[i] := flag]
    ensures Ids(SetFlag(r, i, flag)) == Ids(r)
  {
    var ids, checks', flags := Ids(r), WithFlag(r.checks, i, flag), FlagsOf(r.checks);
    SameIds(r.checks, checks');
    FlagsOfAre(r.checks);
    FlagsOfAre(checks');
    FlagsAtSet(r.checks, ids, flags, i, flag);
    FlagsUnique(checks', ids, FlagsOf(checks'), flags[ids[i] := flag]);
  }

  lemma SetAtMeans(r: Registry, i: nat, flag: bool, save: Save)
    requires Invariant(r) && i < |r.checks|
    ensures
      var r' := SetMonitoredAt(r, i, flag, save).0;
      && Ids(r') == Ids(r) && FlagsOf(r'.checks) == FlagsOf(r.checks)[Ids(r)[i] := flag]
      && r'.saved == FlagsOf(r'.checks)
  {
    SetMeans(r, i, flag);
    SetMonitoredAtSpec(r, i, flag, save);
  }

  lemma SetByIdMeans(r: Registry, id: string, flag: bool, save: Save)
    requires Invariant(r)
    ensures MemoryOf(SetMonitored(r, id, flag, save).0) == Effect(MemoryOf(r), SetById(id, flag, save))
  {
    var i := Find(r, id);
    if i < |r.checks| {
      SetAtMeans(r, i, flag, save);
      assert Ids(r)[i] == id;
    } else {
      assert forall j :: 0 <= j < |r.checks| ==> Ids(r)[j] == r.checks[j].id;
    }
  }

  lemma SetAllMeans(r: Registry, flag: bool, saves: seq<Save>)
    requires Invariant(r) && |saves| == |r.checks|
    ensures MemoryOf(SetMonitoredFrom(r, 0, flag, saves).0) == Effect(MemoryOf(r), SetAll(flag, saves))
  {
    SetMonitoredAllSpec(r, flag, saves);
    SetMonitoredFromSpec(r, 0, flag, saves);
    var saved := SetMonitoredFrom(r, 0, flag, saves).0.saved;
    if r.checks != [] {
      assert saved == map id | id in Ids(r) :: flag;
    } else {
      assert SetMonitoredFrom(r, 0, flag, saves).0 == r;
    }
  }

  lemma CommandMeans(r: Registry, c: Command)
    requires Invariant(r) && Next(r, c).Some?
    ensures MemoryOf(Next(r, c).value) == Effect(MemoryOf(r), c)
  {
    match c
    case AddCheck(id) =>
      if id !in Ids(r) {
        AddMeans(r, id);
      }
    case ReloadFrom(env, control) =>
      ReloadAllOrNothing(r, env, control);
      if Unique(DeclaredInFile(env, control)) {
        ReloadMeans(r, env, control);
      }
    case SetById(id, flag, save) => SetByIdMeans(r, id, flag, save);
    case SetAll(flag, saves) => SetAllMeans(r, flag, saves);
    case UpdateDatabase(_) =>
    case Flip(i, flag) => SetMeans(r, i, flag);
  }

  /** Any commands on the registry leave the ids, flags and entries that the effects
      on plain maps leave. */
  lemma {:induction false} CommandsMean(r: Registry, commands: seq<Command>)
    requires Invariant(r)
    ensures
      var r' := Run(Next, r, commands);
      r'.Some? ==> MemoryOf(r'.value) == Effects(MemoryOf(r), commands) && Invariant(r'.value)
    decreases |commands|
  {
    if commands != [] && Next(r, commands[0]).Some? {
      CommandKeepsInvariant(r, commands[0]);
      CommandMeans(r, commands[0]);
      CommandsMean(Next(r, commands[0]).value, commands[1..]);
    }
  }

  // ----- commands last -----

  /** The command neither sets the flag of check `id` nor unregisters the check. */
  predicate Spares(m: Memory, c: Command, id: string) {
    match c
    case ReloadFrom(env, control) => id in Effect(m, c).ids
    case SetById(other, _, _) => other != id
    case SetAll(_, _) => false
    case Flip(i, _) => i < |m.ids| ==> m.ids[i] != id
    case _ => true
  }

  predicate AllSpare(m: Memory, commands: seq<Command>, id: string)
    decreases |commands|
  {
    commands == [] || (Spares(m, commands[0], id) && AllSpare(Effect(m, commands[0]), commands[1..], id))
  }

  predicate Remembers(m: Memory, id: string, flag: bool) {
    id in m.ids && id in m.flags && id in m.saved && m.flags[id] == flag && m.saved[id] == flag
  }

  lemma {:induction false} EffectsRemember(m: Memory, commands: seq<Command>, id: string, flag: bool)
    requires Remembers(m, id, flag) && AllSpare(m, commands, id)
    ensures Remembers(Effects(m, commands), id, flag)
    decreases |commands|
  {
    if commands != [] {
      EffectsRemember(Effect(m, commands[0]), commands[1..], id, flag);
    }
  }

  /** What Monitor or Unmonitor of a registered check sets stays set through other
      commands, updates and Reloads that keep the check, in the check, in its entry
      and, after a written update, over a restart with any files. */
  lemma CommandLasts(r: Registry, id: string, flag: bool, first: Save, commands: seq<Command>, last: Save,
                     env: Env, control: string)
    requires Invariant(r) && id in Ids(r) && Acyclic(env)
    requires AllSpare(Effect(MemoryOf(r), SetById(id, flag, first)), commands, id)
    requires Run(Next, r, [SetById(id, flag, first)] + commands).Some?
    ensures
      var r' := Run(Next, r, [SetById(id, flag, first)] + commands).value;
      && Remembers(MemoryOf(r'), id, flag)
      && (Update(r', last).1 ==>
            var b := Boot(env, control, Update(r', last).0.file, r'.named).0;
            forall c <- b.checks :: c.id == id ==> c.flag == flag)
  {
    var all := [SetById(id, flag, first)] + commands;
    var r' := Run(Next, r, all).value;
    assert all[0] == SetById(id, flag, first) && all[1..] == commands;
    CommandsMean(r, all);
    EffectsRemember(Effect(MemoryOf(r), all[0]), commands, id, flag);
    if Update(r', last).1 {
      RestartRestores(r', last, env, control);
    }
  }
}
