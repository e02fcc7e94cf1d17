/** What the monitor's registry and its state database hold, as values: the
    registered checks with their flags, the database entries and the state file.
    The functions here specify the methods of module Monitors. */
module Registries {

  /** What the code tells apart about the state file. */
  datatype StateFile = Missing | Unreadable | Empty | Malformed | Contents(saved: map<string, bool>)

  /** How a write of the state file ends; a failed write has already truncated
      the file and may leave anything. */
  datatype Save = Saved | OpenFailed | WriteFailed(left: StateFile)

  datatype CheckView = CheckView(id: string, flag: bool)

  /** `named` says that a state file is configured. */
  datatype Registry = Registry(checks: seq<CheckView>, saved: map<string, bool>, file: StateFile, named: bool)

  function IdsOf(checks: seq<CheckView>): (ids: seq<string>)
    ensures |ids| == |checks| && forall i :: 0 <= i < |ids| ==> ids[i] == checks[i].id
  {
    if checks == [] then [] else IdsOf(checks[..|checks| - 1]) + [checks[|checks| - 1].id]
  }

  function Ids(r: Registry): seq<string> {
    IdsOf(r.checks)
  }

  predicate Unique(ids: seq<string>) {
    forall i, j :: 0 <= i < j < |ids| ==> ids[i] != ids[j]
  }

  function FlagsOf(checks: seq<CheckView>): map<string, bool> {
    if checks == [] then map[]
    else FlagsOf(checks[..|checks| - 1])[checks[|checks| - 1].id := checks[|checks| - 1].flag]
  }

  /** A saved flag, or monitored when there is none. */
  function Lookup(saved: map<string, bool>, id: string): bool {
    if id in saved then saved[id] else true
  }

  // ----- loading and saving -----

  /** NewFileDatabase: a file that cannot be decoded counts as empty. */
  function Deserialize(file: StateFile): map<string, bool> {
    if file.Contents? then file.saved else map[]
  }

  function Opened(file: StateFile, named: bool): Registry {
    Registry([], Deserialize(file), file, named)
  }

  /** Serialize: the file afterwards and whether there was no error. */
  function Written(saved: map<string, bool>, file: StateFile, named: bool, save: Save): (StateFile, bool) {
    if !named then (file, false)
    else
      match save
      case Saved => (Contents(saved), true)
      case OpenFailed => (file, false)
      case WriteFailed(left) => (left, false)
  }

  // ----- commands -----

  /** AddCheck: refused for a registered id; otherwise the flag comes from the
      entry of that id, and a missing entry is created as monitored. */
  function Add(r: Registry, id: string): (Registry, bool) {
    if id in Ids(r) then (r, false)
    else
      var flag := Lookup(r.saved, id);
      (r.(checks := r.checks + [CheckView(id, flag)], saved := r.saved[id := flag]), true)
  }

  function AddAll(r: Registry, ids: seq<string>): Registry
    decreases |ids|
  {
    if ids == [] then r else AddAll(Add(r, ids[0]).0, ids[1..])
  }

  /** UpdateDatabase: afterwards the entries are the registered flags. */
  function Update(r: Registry, save: Save): (Registry, bool) {
    var saved := FlagsOf(r.checks);
    var (file, ok) := Written(saved, r.file, r.named, save);
    (r.(saved := saved, file := file), ok)
  }

  function WithFlag(checks: seq<CheckView>, i: nat, flag: bool): seq<CheckView>
    requires i < |checks|
  {
    checks[i := checks[i].(flag := flag)]
  }

  /** A flag set in memory only, as Perform and the start and stop goroutines do. */
  function SetFlag(r: Registry, i: nat, flag: bool): Registry
    requires i < |r.checks|
  {
    r.(checks := WithFlag(r.checks, i, flag))
  }

  /** FindCheck: the position of the first check with that id. */
  function Find(r: Registry, id: string): (i: nat)
    ensures i <= |r.checks| && (i < |r.checks| ==> r.checks[i].id == id)
    ensures forall j :: 0 <= j < i ==> r.checks[j].id != id
  {
    FindFrom(r.checks, id, 0)
  }

  function FindFrom(checks: seq<CheckView>, id: string, from: nat): (i: nat)
    requires from <= |checks|
    ensures from <= i <= |checks| && (i < |checks| ==> checks[i].id == id)
    ensures forall j :: from <= j < i ==> checks[j].id != id
    decreases |checks| - from
  {
    if from == |checks| || checks[from].id == id then from else FindFrom(checks, id, from + 1)
  }

  /** Monitor and Unmonitor by id. */
  function SetMonitored(r: Registry, id: string, flag: bool, save: Save): (Registry, bool) {
    var i := Find(r, id);
    if i == |r.checks| then (r, false) else SetMonitoredAt(r, i, flag, save)
  }

  /** monitorCheck and unmonitorCheck of check `i`. */
  function SetMonitoredAt(r: Registry, i: nat, flag: bool, save: Save): (Registry, bool)
    requires i < |r.checks|
  {
    Update(SetFlag(r, i, flag), save)
  }

  /** MonitorAll and UnmonitorAll from check `i` on: one update per check, and the
      checks whose update failed. `saves` gives the outcome of each write. */
  function SetMonitoredFrom(r: Registry, i: nat, flag: bool, saves: seq<Save>): (Registry, seq<string>)
    requires i <= |r.checks| == |saves|
    decreases |r.checks| - i
  {
    if i == |r.checks| then (r, [])
    else
      var (r1, ok) := SetMonitoredAt(r, i, flag, saves[i]);
      var (r2, failed) := SetMonitoredFrom(r1, i + 1, flag, saves);
      (r2, (if ok then [] else [r.checks[i].id]) + failed)
  }

  // ----- what the functions promise -----

  lemma {:induction false} FlagsOfChecks(checks: seq<CheckView>)
    requires Unique(IdsOf(checks))
    ensures FlagsOf(checks).Keys == set id <- IdsOf(checks)
    ensures forall i :: 0 <= i < |checks| ==>
      checks[i].id in FlagsOf(checks) && FlagsOf(checks)[checks[i].id] == checks[i].flag
  {
    if checks != [] {
      var n := |checks| - 1;
      assert IdsOf(checks)[..n] == IdsOf(checks[..n]);
      FlagsOfChecks(checks[..n]);
      assert IdsOf(checks) == IdsOf(checks[..n]) + [checks[n].id];
    }
  }

  /** Ids are unique and every registered check has an entry. */
  predicate Invariant(r: Registry) {
    Unique(Ids(r)) && forall id <- Ids(r) :: id in r.saved
  }

  lemma IdsAppend(checks: seq<CheckView>, c: CheckView)
    ensures IdsOf(checks + [c]) == IdsOf(checks) + [c.id]
  {
    assert (checks + [c])[..|checks|] == checks;
  }

  lemma AddKeepsInvariant(r: Registry, id: string)
    requires Invariant(r)
    ensures Invariant(Add(r, id).0)
    ensures Ids(Add(r, id).0) == if id in Ids(r) then Ids(r) else Ids(r) + [id]
  {
    if id !in Ids(r) {
      IdsAppend(r.checks, CheckView(id, Lookup(r.saved, id)));
    }
  }

  lemma {:induction false} AddAllKeepsInvariant(r: Registry, ids: seq<string>)
    requires Invariant(r)
    ensures Invariant(AddAll(r, ids))
    decreases |ids|
  {
    if ids != [] {
      AddKeepsInvariant(r, ids[0]);
      AddAllKeepsInvariant(Add(r, ids[0]).0, ids[1..]);
    }
  }

  lemma FirstIsNew(a: seq<string>, b: seq<string>)
    requires Unique(a + b) && b != []
    ensures b[0] !in a
  {
    var all := a + b;
    assert forall i :: 0 <= i < |a| ==> all[i] == a[i] && all[i] != all[|a|];
  }

  /** Adding fresh ids never fails and registers them in order. */
  lemma {:induction false} AddAllUnique(r: Registry, ids: seq<string>)
    requires Invariant(r) && Unique(Ids(r) + ids)
    ensures Ids(AddAll(r, ids)) == Ids(r) + ids
    decreases |ids|
  {
    if ids == [] {
      assert Ids(r) + ids == Ids(r);
    } else {
      var id, r1 := ids[0], Add(r, ids[0]).0;
      FirstIsNew(Ids(r), ids);
      AddKeepsInvariant(r, id);
      assert Ids(r1) + ids[1..] == Ids(r) + ids;
      AddAllUnique(r1, ids[1..]);
    }
  }

  lemma SameIds(a: seq<CheckView>, b: seq<CheckView>)
    requires |a| == |b| && forall i :: 0 <= i < |a| ==> a[i].id == b[i].id
    ensures IdsOf(a) == IdsOf(b)
  {
  }

  lemma SetFlagKeepsIds(r: Registry, i: nat, flag: bool)
    requires i < |r.checks|
    ensures Ids(SetFlag(r, i, flag)) == Ids(r)
    ensures Invariant(r) ==> Invariant(SetFlag(r, i, flag))
  {
    SameIds(r.checks, SetFlag(r, i, flag).checks);
  }

  /** Right after an update the entries are exactly the registered ids, each with
      its check's flag, and so is the file if the write succeeded. */
  lemma UpdateSynchronises(r: Registry, save: Save)
    requires Invariant(r)
    ensures
      var (r', ok) := Update(r, save);
      && Invariant(r') && r'.checks == r.checks
      && r'.saved.Keys == (set id <- Ids(r))
      && (forall i :: 0 <= i < |r.checks| ==>
            r.checks[i].id in r'.saved && r'.saved[r.checks[i].id] == r.checks[i].flag)
      && (ok <==> r.named && save == Saved)
      && (ok ==> r'.file == Contents(r'.saved))
      && (!ok ==> r'.file == if r.named && save.WriteFailed? then save.left else r.file)
  {
    FlagsOfChecks(r.checks);
  }

  /** FindCheck finds a registered check by its id, because ids are unique. */
  lemma FindRegistered(r: Registry, i: nat)
    requires Unique(Ids(r)) && i < |r.checks|
    ensures Find(r, r.checks[i].id) == i
  {
    assert forall j :: 0 <= j < |r.checks| ==> Ids(r)[j] == r.checks[j].id;
  }

  /** Commanding a registered check by its id is commanding that check. */
  lemma ByOwnId(r: Registry, i: nat, flag: bool, save: Save)
    requires Unique(Ids(r)) && i < |r.checks|
    ensures SetMonitored(r, r.checks[i].id, flag, save) == SetMonitoredAt(r, i, flag, save)
  {
    FindRegistered(r, i);
  }

  lemma SetMonitoredAtSpec(r: Registry, i: nat, flag: bool, save: Save)
    requires Invariant(r) && i < |r.checks|
    ensures
      var (r', ok) := SetMonitoredAt(r, i, flag, save);
      && Ids(r') == Ids(r) && Invariant(r') && r'.named == r.named
      && r'.checks == WithFlag(r.checks, i, flag) && r'.saved == FlagsOf(r'.checks)
      && ok == (r.named && save == Saved)
  {
    SetFlagKeepsIds(r, i, flag);
    UpdateSynchronises(SetFlag(r, i, flag), save);
  }

  /** Monitor and Unmonitor by id: an unknown id changes nothing and is an error; a
      known one gives its check the flag, and nothing else, and all entries follow. */
  lemma SetMonitoredSpec(r: Registry, id: string, flag: bool, save: Save)
    requires Invariant(r)
    ensures
      var (r', ok) := SetMonitored(r, id, flag, save);
      && Ids(r') == Ids(r) && |r'.checks| == |r.checks| && Invariant(r')
      && (id !in Ids(r) ==> r' == r && !ok)
      && (forall j :: 0 <= j < |r.checks| ==>
            r'.checks[j].flag == if r.checks[j].id == id then flag else r.checks[j].flag)
      && (id in Ids(r) ==> (ok <==> r.named && save == Saved) && r'.saved.Keys == (set i <- Ids(r))
                           && r'.saved[id] == flag)
  {
    var i := Find(r, id);
    assert forall j :: 0 <= j < |r.checks| ==> Ids(r)[j] == r.checks[j].id;
    if i < |r.checks| {
      SetMonitoredAtSpec(r, i, flag, save);
      UpdateSynchronises(SetFlag(r, i, flag), save);
      assert SetFlag(r, i, flag).checks[i] == CheckView(id, flag);
    }
  }

  lemma {:induction false} SetMonitoredFromSpec(r: Registry, i: nat, flag: bool, saves: seq<Save>)
    requires Invariant(r) && i <= |r.checks| == |saves|
    ensures
      var r' := SetMonitoredFrom(r, i, flag, saves).0;
      && Ids(r') == Ids(r) && |r'.checks| == |r.checks| && Invariant(r')
      && (forall j :: 0 <= j < |r.checks| ==> r'.checks[j].flag == if j < i then r.checks[j].flag else flag)
      && (i < |r.checks| || r.saved == FlagsOf(r.checks) ==> r'.saved == FlagsOf(r'.checks))
    decreases |r.checks| - i
  {
    if i < |r.checks| {
      SetMonitoredAtSpec(r, i, flag, saves[i]);
      SetMonitoredFromSpec(SetMonitoredAt(r, i, flag, saves[i]).0, i + 1, flag, saves);
    }
  }

  /** The ids whose write fails, in order. */
  function FailedIds(ids: seq<string>, i: nat, named: bool, saves: seq<Save>): seq<string>
    requires i <= |ids| == |saves|
    decreases |ids| - i
  {
    if i == |ids| then []
    else (if named && saves[i] == Saved then [] else [ids[i]]) + FailedIds(ids, i + 1, named, saves)
  }

  lemma {:induction false} FailuresAre(r: Registry, i: nat, flag: bool, saves: seq<Save>)
    requires Invariant(r) && i <= |r.checks| == |saves|
    ensures SetMonitoredFrom(r, i, flag, saves).1 == FailedIds(Ids(r), i, r.named, saves)
    decreases |r.checks| - i
  {
    if i < |r.checks| {
      SetMonitoredAtSpec(r, i, flag, saves[i]);
      FailuresAre(SetMonitoredAt(r, i, flag, saves[i]).0, i + 1, flag, saves);
      assert r.checks[i].id == Ids(r)[i];
    }
  }

  lemma {:induction false} SetMonitoredFromFailures(r: Registry, i: nat, flag: bool, saves: seq<Save>)
    requires Invariant(r) && i <= |r.checks| == |saves|
    ensures SetMonitoredFrom(r, i, flag, saves).1 == []
       <==> forall j :: i <= j < |r.checks| ==> r.named && saves[j] == Saved
    decreases |r.checks| - i
  {
    if i < |r.checks| {
      SetMonitoredAtSpec(r, i, flag, saves[i]);
      SetMonitoredFromFailures(SetMonitoredAt(r, i, flag, saves[i]).0, i + 1, flag, saves);
    }
  }

  /** After MonitorAll or UnmonitorAll every check has the flag, so has every entry
      when there is a check, and errors are reported unless every write succeeded. */
  lemma SetMonitoredAllSpec(r: Registry, flag: bool, saves: seq<Save>)
    requires Invariant(r) && |saves| == |r.checks|
    ensures
      var (r', failed) := SetMonitoredFrom(r, 0, flag, saves);
      && Ids(r') == Ids(r) && Invariant(r')
      && (forall c <- r'.checks :: c.flag == flag)
      && (r.checks != [] ==> r'.saved.Keys == (set id <- Ids(r)) && forall id <- r'.saved :: r'.saved[id] == flag)
      && (failed == [] <==> forall j :: 0 <= j < |r.checks| ==> r.named && saves[j] == Saved)
      && failed == FailedIds(Ids(r), 0, r.named, saves)
  {
    FailuresAre(r, 0, flag, saves);
    SetMonitoredFromSpec(r, 0, flag, saves);
    SetMonitoredFromFailures(r, 0, flag, saves);
    var r' := SetMonitoredFrom(r, 0, flag, saves).0;
    if r.checks != [] {
      FlagsOfChecks(r'.checks);
      forall id <- r'.saved
        ensures r'.saved[id] == flag
      {
        assert id in Ids(r');
      }
    }
  }

  // ----- the loop of MonitorAll -----

  /** A loop that reached check `i` with `failed` will end with `whole`. */
  predicate Remaining(whole: (Registry, seq<string>), r: Registry, i: nat, flag: bool, saves: seq<Save>,
                      failed: seq<string>)
  {
    && i <= |r.checks| == |saves|
    && var rest := SetMonitoredFrom(r, i, flag, saves);
       whole.0 == rest.0 && whole.1 == failed + rest.1
  }

  lemma RemainingStart(r: Registry, flag: bool, saves: seq<Save>)
    requires |r.checks| == |saves|
    ensures Remaining(SetMonitoredFrom(r, 0, flag, saves), r, 0, flag, saves, [])
  {
    var failed := SetMonitoredFrom(r, 0, flag, saves).1;
    assert [] + failed == failed;
  }

  lemma RemainingNext(whole: (Registry, seq<string>), r: Registry, i: nat, flag: bool, saves: seq<Save>,
                      failed: seq<string>)
    requires i < |r.checks| == |saves| && Remaining(whole, r, i, flag, saves, failed)
    ensures
      var (r', ok) := SetMonitoredAt(r, i, flag, saves[i]);
      && |r'.checks| == |saves|
      && Remaining(whole, r', i + 1, flag, saves, if ok then failed else failed + [r.checks[i].id])
  {
  }

  lemma RemainingEnd(whole: (Registry, seq<string>), r: Registry, flag: bool, saves: seq<Save>, failed: seq<string>)
    requires |r.checks| == |saves| && Remaining(whole, r, |saves|, flag, saves, failed)
    ensures whole == (r, failed)
  {
    assert failed + [] == failed;
  }

  // ----- the loops of UpdateDatabase -----

  /** Writing one more flag. */
  lemma WriteNext(saved: map<string, bool>, checks: seq<CheckView>, i: nat)
    requires i < |checks|
    ensures FlagsOf(checks[..i + 1]) == FlagsOf(checks[..i])[checks[i].id := checks[i].flag]
    ensures saved + FlagsOf(checks[..i + 1]) == (saved + FlagsOf(checks[..i]))[checks[i].id := checks[i].flag]
  {
    assert checks[..i + 1][..i] == checks[..i];
  }

  /** The keys that the deleting loop has met and dropped. */
  function Dropped(keys: seq<string>, keep: set<string>): set<string> {
    if keys == [] then {}
    else Dropped(keys[..|keys| - 1], keep) + (if keys[|keys| - 1] in keep then {} else {keys[|keys| - 1]})
  }

  lemma DropNext(saved: map<string, bool>, keys: seq<string>, keep: set<string>, i: nat)
    requires i < |keys|
    ensures saved - Dropped(keys[..i + 1], keep)
         == if keys[i] in keep then saved - Dropped(keys[..i], keep) else (saved - Dropped(keys[..i], keep)) - {keys[i]}
  {
    assert keys[..i + 1][..i] == keys[..i];
  }

  lemma {:induction false} DroppedIs(keys: seq<string>, keep: set<string>)
    ensures forall k :: k in Dropped(keys, keep) <==> k in keys && k !in keep
  {
    if keys != [] {
      DroppedIs(keys[..|keys| - 1], keep);
      assert keys == keys[..|keys| - 1] + [keys[|keys| - 1]];
    }
  }

  /** Both loops together leave exactly the written flags. */
  lemma LoopsLeaveFlags(saved: map<string, bool>, checks: seq<CheckView>, keys: seq<string>)
    requires forall k :: k in keys <==> k in saved + FlagsOf(checks)
    ensures (saved + FlagsOf(checks)) - Dropped(keys, FlagsOf(checks).Keys) == FlagsOf(checks)
  {
    DroppedIs(keys, FlagsOf(checks).Keys);
  }

  // ----- persistence -----

  /** Every registered flag and every entry is the one `origin` had for its id, or
      monitored; no entry of `origin` is lost. */
  predicate RestoredFrom(r: Registry, origin: map<string, bool>) {
    && (forall c <- r.checks :: c.flag == Lookup(origin, c.id))
    && (forall id <- r.saved :: r.saved[id] == Lookup(origin, id))
    && origin.Keys <= r.saved.Keys
  }

  lemma AddRestores(r: Registry, id: string, origin: map<string, bool>)
    requires RestoredFrom(r, origin)
    ensures RestoredFrom(Add(r, id).0, origin)
  {
  }

  lemma {:induction false} AddAllRestores(r: Registry, ids: seq<string>, origin: map<string, bool>)
    requires RestoredFrom(r, origin)
    ensures RestoredFrom(AddAll(r, ids), origin)
    decreases |ids|
  {
    if ids != [] {
      AddRestores(r, ids[0], origin);
      AddAllRestores(Add(r, ids[0]).0, ids[1..], origin);
    }
  }
}
