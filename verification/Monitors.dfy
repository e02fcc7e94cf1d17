/** The monitor object (monitor/monitor.go), the validator (monitor/validation.go),
    the parser that drives either of them (monitor/parsing.go), and the by-id
    command of the server (monitor/server.go), updating their objects in place.
    Each method is tied to the function of Registries, Loader or Lifecycle that
    specifies it. The entry locks are the subject of module Updates. */
module Monitors {
  import opened Machines
  import opened Registries
  import opened Databases
  import opened Checks
  import opened Loader
  import Cleaner
  import Splitter
  import Lifecycle

  /** The check objects have the ids and flags of `views`. */
  ghost predicate Represent(cs: seq<Check>, views: seq<CheckView>)
    reads cs
  {
    && |cs| == |views|
    && forall i :: 0 <= i < |cs| ==> cs[i].id == views[i].id && cs[i].monitored == Some(views[i].flag)
  }

  lemma NotRegistered(cs: seq<Check>, r: Registry, c: Check)
    requires Represent(cs, r.checks) && c.id !in Ids(r)
    ensures forall i :: 0 <= i < |cs| ==> cs[i] != c
  {
    forall i | 0 <= i < |cs|
      ensures cs[i] != c
    {
      assert Ids(r)[i] == cs[i].id;
    }
  }

  /** Different positions hold different check objects, because ids are unique. */
  lemma OtherChecks(cs: seq<Check>, r: Registry, i: nat)
    requires Represent(cs, r.checks) && Unique(Ids(r)) && i < |cs|
    ensures forall j :: 0 <= j < |cs| && j != i ==> cs[j] != cs[i]
  {
    forall j | 0 <= j < |cs| && j != i
      ensures cs[j] != cs[i]
    {
      assert Ids(r)[j] == cs[j].id && Ids(r)[i] == cs[i].id;
    }
  }

  lemma AddFresh(r: Registry, id: string)
    requires id !in Ids(r)
    ensures
      var flag := Lookup(r.saved, id);
      Add(r, id) == (Registry(r.checks + [CheckView(id, flag)], r.saved[id := flag], r.file, r.named), true)
  {
  }

  lemma FindMisses(r: Registry, id: string)
    ensures Find(r, id) == |r.checks| <==> id !in Ids(r)
  {
    var i := Find(r, id);
    assert i < |r.checks| ==> Ids(r)[i] == id;
  }

  predicate HaveEntries(views: seq<CheckView>, saved: map<string, bool>) {
    forall i :: 0 <= i < |views| ==> views[i].id in saved
  }

  lemma InvariantHasEntries(r: Registry)
    requires Invariant(r)
    ensures HaveEntries(r.checks, r.saved)
  {
    assert forall i :: 0 <= i < |r.checks| ==> Ids(r)[i] == r.checks[i].id;
  }

  class Monitor {
    var checks: seq<Check>
    const database: Database
    /** The ids and flags of the checks, as a value. */
    ghost var views: seq<CheckView>
    /** The objects that make up the monitor. */
    ghost var repr: set<object>

    ghost function View(): Registry
      reads this, database
    {
      Registry(views, database.saved, database.file, database.named)
    }

    ghost predicate Owns()
      reads this, database
    {
      && this in repr && database in repr
      && (forall e :: e in database.entries ==> e in repr)
      && (forall i :: 0 <= i < |checks| ==> checks[i] in repr)
    }

    ghost predicate Consistent()
      reads this, database, repr
    {
      Owns() && database.Valid() && Represent(checks, views)
    }

    ghost predicate Valid()
      reads this, database, repr
    {
      Consistent() && Invariant(View())
    }

    constructor (file: StateFile, named: bool)
      ensures Valid() && View() == Opened(file, named)
      ensures fresh(repr)
    {
      checks, views := [], [];
      database := new Database(file, named);
      new;
      repr := {this, database} + database.entries;
    }

    method FindCheck(id: string) returns (c: Check?)
      requires Represent(checks, views)
      ensures
        var i := Find(View(), id);
        c == if i < |checks| then checks[i] else null
    {
      ghost var r := View();
      for i := 0 to |checks|
        invariant Find(r, id) == FindFrom(r.checks, id, i)
      {
        if checks[i].id == id {
          return checks[i];
        }
      }
      return null;
    }

    /** A new entry takes the flag of its check. */
    method CreateEntry(c: Check)
      requires Consistent() && c.id !in database.storage && c.monitored.Some?
      modifies this`repr, database`storage, database`saved, database`entries
      ensures Consistent() && fresh(repr - old(repr))
      ensures database.saved == old(database.saved)[c.id := c.monitored.value]
    {
      var e := database.AddEntryWith(c.id, c.monitored.value);
      repr := repr + {e};
    }

    /** The entry part of AddCheck: the check takes the flag of its entry, or the
        other way round when the entry is new. */
    method AttachEntry(c: Check)
      requires Consistent() && c !in checks && c.monitored == Some(true)
      modifies this`repr, database`storage, database`saved, database`entries, c`monitored
      ensures Consistent() && fresh(repr - old(repr))
      ensures
        var flag := Lookup(old(database.saved), c.id);
        c.monitored == Some(flag) && database.saved == old(database.saved)[c.id := flag]
    {
      var e := database.GetEntry(c.id);
      if e == null {
        CreateEntry(c);
      } else {
        c.SetMonitored(e.monitored);
        assert database.saved == database.saved[c.id := e.monitored];
      }
    }

    method Append(c: Check)
      requires Consistent() && c.monitored.Some?
      modifies this`checks, this`views, this`repr
      ensures Consistent() && repr == old(repr) + {c}
      ensures checks == old(checks) + [c] && views == old(views) + [CheckView(c.id, c.monitored.value)]
    {
      checks := checks + [c];
      views := views + [CheckView(c.id, c.monitored.value)];
      repr := repr + {c};
    }

    /** AddCheck of an id that is not registered. */
    method Register(c: Check, running: bool, now: nat)
      requires Consistent() && c.id !in Ids(View()) && c !in checks
      modifies this`checks, this`views, this`repr, database`storage, database`saved, database`entries, c
      ensures Consistent() && View() == Add(old(View()), c.id).0
      ensures checks == old(checks) + [c]
      ensures c.startTimeout == if c.isProcess && old(c.startTimeout) == 0 then 120000 else old(c.startTimeout)
      ensures c.stopTimeout == if c.isProcess && old(c.stopTimeout) == 0 then 120000 else old(c.stopTimeout)
      ensures fresh(repr - old(repr) - {c})
    {
      AddFresh(View(), c.id);
      c.Initialize(running, now);
      AttachEntry(c);
      Append(c);
    }

    method AddCheck(c: Check, running: bool, now: nat) returns (ok: bool)
      requires Valid()
      modifies repr, c
      ensures Valid() && (View(), ok) == Add(old(View()), c.id)
      ensures checks == if ok then old(checks) + [c] else old(checks)
      ensures fresh(repr - old(repr) - {c})
    {
      var found := FindCheck(c.id);
      FindMisses(View(), c.id);
      if found != null {
        return false;
      }
      NotRegistered(checks, View(), c);
      AddKeepsInvariant(View(), c.id);
      Register(c, running, now);
      return true;
    }

    /** UpdateDatabase for one check: its flag goes to its entry. */
    method WriteFlag(c: Check)
      requires database.Valid() && c.monitored.Some?
      modifies database`storage, database`saved, database`entries, database.entries
      ensures database.Valid() && fresh(database.entries - old(database.entries))
      ensures database.saved == old(database.saved)[c.id := c.monitored.value]
      ensures c.id in old(database.saved) ==> database.entries == old(database.entries)
    {
      var e := database.GetEntry(c.id);
      if e == null {
        e := database.AddEntry(c.id);
      }
      database.SetEntry(e, c.monitored.value);
    }

    /** The first loop of UpdateDatabase. */
    method WriteFlags() returns (whileList: set<string>)
      requires database.Valid() && Represent(checks, views)
      modifies database`storage, database`saved, database`entries, database.entries
      ensures database.Valid() && fresh(database.entries - old(database.entries))
      ensures whileList == FlagsOf(views).Keys
      ensures database.saved == old(database.saved) + FlagsOf(views)
      ensures HaveEntries(views, old(database.saved)) ==> database.entries == old(database.entries)
    {
      ghost var saved := database.saved;
      whileList := {};
      for i := 0 to |checks|
        invariant database.Valid() && fresh(database.entries - old(database.entries))
        invariant whileList == FlagsOf(views[..i]).Keys
        invariant database.saved == saved + FlagsOf(views[..i])
        invariant HaveEntries(views, saved) ==> database.entries == old(database.entries)
      {
        WriteFlag(checks[i]);
        whileList := whileList + {checks[i].id};
        WriteNext(saved, views, i);
      }
      assert views[..|checks|] == views;
    }

    /** Its second loop: deletes the entries whose id is not in the list. */
    method Prune(whileList: set<string>) returns (ghost keys: seq<string>)
      requires database.Valid()
      modifies database`storage, database`saved
      ensures database.Valid() && forall k :: k in keys <==> k in old(database.saved).Keys
      ensures database.saved == old(database.saved) - Dropped(keys, whileList)
    {
      var ids := database.Keys();
      keys := ids;
      ghost var saved := database.saved;
      for i := 0 to |ids|
        invariant database.Valid()
        invariant database.saved == saved - Dropped(ids[..i], whileList)
      {
        DropNext(saved, ids, whileList, i);
        if ids[i] !in whileList {
          var deleted := database.Delete(ids[i]);
        }
      }
      assert ids[..|ids|] == ids;
    }

    /** Missing entries are created, stale ones deleted, and the rest is written. */
    method UpdateDatabase(save: Save) returns (ok: bool)
      requires database.Valid() && Represent(checks, views)
      modifies database, database.entries
      ensures database.Valid() && fresh(database.entries - old(database.entries))
      ensures (View(), ok) == Update(old(View()), save)
      ensures HaveEntries(views, old(database.saved)) ==> database.entries == old(database.entries)
    {
      ghost var saved := database.saved;
      var whileList := WriteFlags();
      ghost var keys := Prune(whileList);
      LoopsLeaveFlags(saved, views, keys);
      ok := database.Serialize(save);
    }

    method SetFlagOf(c: Check, flag: bool, ghost i: nat)
      requires Valid() && i < |checks| && checks[i] == c
      modifies c`monitored, this`views
      ensures Consistent() && views == WithFlag(old(views), i, flag)
    {
      OtherChecks(checks, View(), i);
      c.SetMonitored(flag);
      views := WithFlag(views, i, flag);
    }

    /** UpdateDatabase on registered checks leaves the rest of the monitor alone. */
    method Synchronise(save: Save) returns (ok: bool)
      requires Consistent() && HaveEntries(views, database.saved)
      modifies database, database.entries
      ensures Consistent() && database.entries == old(database.entries)
      ensures (View(), ok) == Update(old(View()), save)
    {
      ok := UpdateDatabase(save);
    }

    /** monitorCheck and unmonitorCheck, with `flag` true and false. */
    method SetMonitoredCheck(c: Check, flag: bool, save: Save, ghost i: nat) returns (ok: bool)
      requires Valid() && i < |checks| && checks[i] == c
      modifies repr
      ensures Valid() && checks == old(checks) && repr == old(repr)
      ensures (View(), ok) == SetMonitoredAt(old(View()), i, flag, save)
    {
      InvariantHasEntries(View());
      SetMonitoredAtSpec(View(), i, flag, save);
      SetFlagOf(c, flag, i);
      ok := Synchronise(save);
    }

    /** Monitor and Unmonitor by id. */
    method SetMonitoredById(id: string, flag: bool, save: Save) returns (ok: bool)
      requires Valid()
      modifies repr
      ensures Valid() && checks == old(checks) && repr == old(repr)
      ensures (View(), ok) == SetMonitored(old(View()), id, flag, save)
    {
      var c := FindCheck(id);
      if c == null {
        return false;
      }
      ok := SetMonitoredCheck(c, flag, save, Find(View(), id));
    }

    /** One round of MonitorAll and UnmonitorAll. */
    method SetMonitoredNext(i: nat, flag: bool, saves: seq<Save>, failed: seq<string>,
                            ghost whole: (Registry, seq<string>))
      returns (failed': seq<string>)
      requires Valid() && i < |saves| == |checks| && Remaining(whole, View(), i, flag, saves, failed)
      modifies repr
      ensures Valid() && checks == old(checks) && repr == old(repr)
      ensures Remaining(whole, View(), i + 1, flag, saves, failed')
    {
      RemainingNext(whole, View(), i, flag, saves, failed);
      var ok := SetMonitoredCheck(checks[i], flag, saves[i], i);
      failed' := if ok then failed else failed + [checks[i].id];
    }

    /** MonitorAll and UnmonitorAll: the ids whose update failed. */
    method SetMonitoredAll(flag: bool, saves: seq<Save>) returns (failed: seq<string>)
      requires Valid() && |saves| == |checks|
      modifies repr
      ensures Valid() && checks == old(checks) && repr == old(repr)
      ensures (View(), failed) == SetMonitoredFrom(old(View()), 0, flag, saves)
    {
      ghost var whole := SetMonitoredFrom(View(), 0, flag, saves);
      failed := [];
      RemainingStart(View(), flag, saves);
      for i := 0 to |checks|
        invariant Valid() && checks == old(checks) && repr == old(repr)
        invariant Remaining(whole, View(), i, flag, saves, failed)
      {
        failed := SetMonitoredNext(i, flag, saves, failed, whole);
      }
      RemainingEnd(whole, View(), flag, saves, failed);
    }

    /** One round of the server's loop: the check is looked up again by its id. */
    method ServeNext(i: nat, flag: bool, saves: seq<Save>, failed: seq<string>, ghost whole: (Registry, seq<string>))
      returns (failed': seq<string>)
      requires Valid() && i < |saves| == |checks| && Remaining(whole, View(), i, flag, saves, failed)
      modifies repr
      ensures Valid() && checks == old(checks) && repr == old(repr)
      ensures Remaining(whole, View(), i + 1, flag, saves, failed')
    {
      RemainingNext(whole, View(), i, flag, saves, failed);
      ByOwnId(View(), i, flag, saves[i]);
      var ok := SetMonitoredById(checks[i].id, flag, saves[i]);
      failed' := if ok then failed else failed + [checks[i].id];
    }

    method ServeLoop(flag: bool, saves: seq<Save>) returns (failed: seq<string>)
      requires Valid() && |saves| == |checks|
      modifies repr
      ensures Valid() && checks == old(checks) && repr == old(repr)
      ensures (View(), failed) == SetMonitoredFrom(old(View()), 0, flag, saves)
    {
      ghost var whole := SetMonitoredFrom(View(), 0, flag, saves);
      failed := [];
      RemainingStart(View(), flag, saves);
      for i := 0 to |checks|
        invariant Valid() && checks == old(checks) && repr == old(repr)
        invariant Remaining(whole, View(), i, flag, saves, failed)
      {
        failed := ServeNext(i, flag, saves, failed, whole);
      }
      RemainingEnd(whole, View(), flag, saves, failed);
    }

    /** The server's `_all` command: although it looks every check up by its id, it
        does what the direct loop does and reports the same failures. */
    method ServeSetMonitoredAll(flag: bool, saves: seq<Save>) returns (success: bool, failed: seq<string>)
      requires Valid() && |saves| == |checks|
      modifies repr
      ensures Valid() && checks == old(checks) && repr == old(repr)
      ensures (View(), failed) == SetMonitoredFrom(old(View()), 0, flag, saves)
      ensures success <==> failed == []
    {
      failed := ServeLoop(flag, saves);
      success := failed == [];
    }

    /** Reload: what a validator collected from the files replaces the checks, or
        nothing changes. */
    method Reload(env: Env, control: string, running: string -> bool, now: nat) returns (accepted: bool)
      requires Valid() && Acyclic(env)
      modifies repr
      ensures Valid() && fresh(repr - old(repr))
      ensures (View(), accepted) == Lifecycle.Reload(old(View()), env, control)
    {
      var v := Validate(env, control, running, now);
      if !v.success {
        return false;
      }
      Clear();
      LoadValidated(v, running, now);
      return true;
    }

    method Clear()
      requires Valid()
      modifies this`checks, this`views
      ensures Valid() && View() == old(View()).(checks := [])
    {
      checks, views := [], [];
    }

    /** The loop of Reload. */
    method LoadValidated(v: Validator, running: string -> bool, now: nat)
      requires Valid() && v.Valid() && v !in repr
      modifies repr, v.members
      ensures Valid() && fresh(repr - old(repr) - v.members)
      ensures View() == AddAll(old(View()), v.ids)
    {
      ghost var whole, ids, members := AddAll(View(), v.ids), v.ids, v.members;
      var found := v.checks;
      for i := 0 to |found|
        invariant Valid() && fresh(repr - old(repr) - members)
        invariant AddAll(View(), ids[i..]) == whole
      {
        assert ids[i..][1..] == ids[i + 1..];
        var ok := AddCheck(found[i], running(found[i].id), now);
      }
      assert ids[|found|..] == [];
    }
  }

  /** The validator's run over a control file. */
  method Validate(env: Env, control: string, running: string -> bool, now: nat) returns (v: Validator)
    requires Acyclic(env)
    ensures v.Valid() && fresh(v) && fresh(v.members)
    ensures Dry(v.ids, v.success) == Lifecycle.Validation(env, control)
  {
    v := new Validator();
    var ignored := ParseConfigFile(env, control, Validating(v), running, now);
  }

  class Validator {
    var checks: seq<Check>
    var success: bool
    ghost var ids: seq<string>
    /** The checks that were ever offered. */
    ghost var members: set<object>

    ghost predicate Valid()
      reads this
    {
      && |checks| == |ids| && this !in members
      && forall i :: 0 <= i < |checks| ==> checks[i].id == ids[i] && checks[i] in members
    }

    constructor ()
      ensures Valid() && success && ids == [] && members == {}
    {
      checks, success, ids, members := [], true, [], {};
    }

    method FindCheck(id: string) returns (found: bool)
      requires Valid()
      ensures found <==> id in ids
    {
      for i := 0 to |checks|
        invariant id !in ids[..i]
      {
        if checks[i].id == id {
          return true;
        }
      }
      return false;
    }

    method AddCheck(c: Check) returns (ok: bool)
      requires Valid()
      modifies this
      ensures Valid() && members == old(members) + {c}
      ensures (Dry(ids, success), if ok then Done else Conflict(c.id)) == AddTo(Dry(old(ids), old(success)), c.id)
    {
      members := members + {c};
      var found := FindCheck(c.id);
      if found {
        success := false;
        return false;
      }
      checks, ids := checks + [c], ids + [c.id];
      return true;
    }
  }

  /** The walker interface and its two implementations. */
  datatype WalkerRef = Loading(m: Monitor) | Validating(v: Validator)

  ghost function Repr(w: WalkerRef): set<object>
    reads if w.Loading? then w.m as object else w.v
  {
    if w.Loading? then w.m.repr else w.v.members + {w.v}
  }

  ghost predicate IsValid(w: WalkerRef)
    reads if w.Loading? then {w.m, w.m.database} + w.m.repr else {w.v}
  {
    if w.Loading? then w.m.Valid() else w.v.Valid()
  }

  ghost function ViewOf(w: WalkerRef): Walker
    reads if w.Loading? then {w.m, w.m.database} else {w.v}
  {
    if w.Loading? then Live(w.m.View()) else Dry(w.v.ids, w.v.success)
  }

  method WalkerAddCheck(w: WalkerRef, c: Check, running: bool, now: nat) returns (o: Outcome)
    requires IsValid(w)
    modifies Repr(w), c
    ensures IsValid(w) && fresh(Repr(w) - old(Repr(w)) - {c})
    ensures (ViewOf(w), o) == AddTo(old(ViewOf(w)), c.id)
  {
    var ok;
    match w {
      case Loading(m) => ok := m.AddCheck(c, running, now);
      case Validating(v) => ok := v.AddCheck(c);
    }
    o := if ok then Done else Conflict(c.id);
  }

  /** ParseConfigFile and, below, ParseConfig: they drive the walker as ParseFile
      and Process say. `running` is used to initialize loaded checks. */
  method ParseConfigFile(env: Env, f: string, w: WalkerRef, running: string -> bool, now: nat) returns (o: Outcome)
    requires Acyclic(env) && IsValid(w)
    modifies Repr(w)
    ensures IsValid(w) && fresh(Repr(w) - old(Repr(w)))
    ensures (ViewOf(w), o) == ParseFile(env, f, old(ViewOf(w)))
    decreases RankOf(env, f)
  {
    if !IsReadable(env, f) {
      return ReadError;
    }
    o := ParseConfig(env, env.files[f], w, running, now, RankOf(env, f));
  }

  /** The first directive of a text, and the rest, as Process goes through them. */
  lemma ProcessNext(env: Env, t: string, w: Walker, rank: nat)
    requires Acyclic(env) && IncludesBelow(env, Splitter.Split(t), rank) && Splitter.FirstStart(t).Some?
    ensures
      var s := t[Splitter.FirstStart(t).value..];
      var d, rest := Splitter.DirectiveOf(s), Splitter.RestOf(s);
      && IncludesBelow(env, [d], rank) && IncludesBelow(env, Splitter.Split(rest), rank) && |rest| < |t|
      && var (w', o) := ProcessOne(env, d, w, rank);
         Process(env, Splitter.Split(t), w, rank)
           == if o != Done then (w', o) else Process(env, Splitter.Split(rest), w', rank)
  {
    var s := t[Splitter.FirstStart(t).value..];
    var ds := Splitter.Split(t);
    assert ds[0] == Splitter.DirectiveOf(s) && ds[1..] == Splitter.Split(Splitter.RestOf(s));
  }

  method ParseConfig(env: Env, config: string, w: WalkerRef, running: string -> bool, now: nat, ghost rank: nat)
    returns (o: Outcome)
    requires Acyclic(env) && IncludesBelow(env, Splitter.Split(Cleaner.Clean(config)), rank) && IsValid(w)
    modifies Repr(w)
    ensures IsValid(w) && fresh(Repr(w) - old(Repr(w)))
    ensures (ViewOf(w), o) == Process(env, Splitter.Split(Cleaner.Clean(config)), old(ViewOf(w)), rank)
    decreases rank, 3
  {
    var toParse := Cleaner.CleanLines(config);
    ghost var whole := Process(env, Splitter.Split(toParse), ViewOf(w), rank);
    while true
      invariant IsValid(w) && fresh(Repr(w) - old(Repr(w)))
      invariant IncludesBelow(env, Splitter.Split(toParse), rank)
      invariant Process(env, Splitter.Split(toParse), ViewOf(w), rank) == whole
      decreases |toParse|
    {
      var start := Splitter.FirstStart(toParse);
      if start == None {
        return Done;
      }
      toParse, o := ParseNext(env, toParse, start.value, w, running, now, rank);
      if o != Done {
        return o;
      }
    }
  }

  /** One round of its loop. */
  method ParseNext(env: Env, toParse: string, start: nat, w: WalkerRef,
                   running: string -> bool, now: nat, ghost rank: nat)
    returns (rest: string, o: Outcome)
    requires Acyclic(env) && IncludesBelow(env, Splitter.Split(toParse), rank) && IsValid(w)
    requires Splitter.FirstStart(toParse) == Some(start)
    modifies Repr(w)
    ensures IsValid(w) && fresh(Repr(w) - old(Repr(w)))
    ensures |rest| < |toParse| && IncludesBelow(env, Splitter.Split(rest), rank)
    ensures
      Process(env, Splitter.Split(toParse), old(ViewOf(w)), rank)
        == if o != Done then (ViewOf(w), o) else Process(env, Splitter.Split(rest), ViewOf(w), rank)
    decreases rank, 2
  {
    ProcessNext(env, toParse, ViewOf(w), rank);
    var directive := Splitter.DirectiveOf(toParse[start..]);
    rest := Splitter.RestOf(toParse[start..]);
    o := ParseDirective(env, directive, w, running, now, rank);
  }

  method ParseDirective(env: Env, directive: Splitter.Directive, w: WalkerRef,
                        running: string -> bool, now: nat, ghost rank: nat)
    returns (o: Outcome)
    requires Acyclic(env) && IncludesBelow(env, [directive], rank) && IsValid(w)
    modifies Repr(w)
    ensures IsValid(w) && fresh(Repr(w) - old(Repr(w)))
    ensures (ViewOf(w), o) == ProcessOne(env, directive, old(ViewOf(w)), rank)
    decreases rank, 1
  {
    match directive.keyword {
      case Include =>
        match GlobOf(env, directive) {
          case BadPattern =>
            return BadGlob;
          case Matches(files) =>
            assert directive in [directive];
            ParseIncluded(env, files, w, running, now, rank);
            return Done;
        }
      case Check =>
        var header := ParseHeader(directive.config);
        if header == None {
          return BadCheck;
        }
        var c := NewCheck(header.value);
        o := WalkerAddCheck(w, c, running(c.id), now);
      case Set =>
        return Done;
    }
  }

  /** newCheck: only the kind `process` makes a process check. */
  method NewCheck(header: Header) returns (c: Check)
    ensures fresh(c) && c.id == header.id && (c.isProcess <==> header.kind == "process")
    ensures c.timeout == 120000 && c.monitored == None && c.startTimeout == c.stopTimeout == 0
  {
    c := new Check(header.id, header.kind == "process", 0, 0);
  }

  method ParseIncluded(env: Env, files: seq<string>, w: WalkerRef, running: string -> bool, now: nat, ghost rank: nat)
    requires Acyclic(env) && FilesBelow(env, files, rank) && IsValid(w)
    modifies Repr(w)
    ensures IsValid(w) && fresh(Repr(w) - old(Repr(w)))
    ensures ViewOf(w) == ParseFiles(env, files, old(ViewOf(w)), rank)
    decreases rank, 0
  {
    ghost var whole := ParseFiles(env, files, ViewOf(w), rank);
    for i := 0 to |files|
      invariant IsValid(w) && fresh(Repr(w) - old(Repr(w)))
      invariant ParseFiles(env, files[i..], ViewOf(w), rank) == whole
    {
      assert files[i..][1..] == files[i + 1..];
      var ignored := ParseConfigFile(env, files[i], w, running, now);
    }
    assert files[|files|..] == [];
  }

  /** New: a monitor loaded from a state file and a control file. */
  method NewMonitor(file: StateFile, named: bool, env: Env, control: string, running: string -> bool, now: nat)
    returns (m: Monitor, o: Outcome)
    requires Acyclic(env)
    ensures m.Valid() && fresh(m.repr) && (m.View(), o) == Lifecycle.Boot(env, control, file, named)
  {
    m := new Monitor(file, named);
    Lifecycle.BootIsLive(env, control, file, named);
    if control == "" {
      return m, Done;
    }
    o := ParseConfigFile(env, control, Loading(m), running, now);
  }
}
