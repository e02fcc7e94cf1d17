/** The recursive configuration parser (monitor/parsing.go) and its two walkers:
    the live loader, which registers checks in the monitor, and the validator,
    which only collects them (monitor/config.go, monitor/validation.go). */
module Loader {
  import opened Machines
  import opened Text
  import Cleaner
  import opened Splitter
  import opened Registries

  datatype Glob = BadPattern | Matches(files: seq<string>)

  /** The readable files with their contents, what each pattern expands to, and a
      rank that falls along includes. */
  datatype Env = Env(files: map<string, string>, globs: map<string, Glob>, rank: map<string, nat>)

  datatype Header = Header(kind: string, id: string)

  /** How parsing ends; nil is Done. */
  datatype Outcome = Done | ReadError | BadGlob | BadCheck | Conflict(id: string)

  // ----- what directives say -----

  function Token(s: string): (t: string)
    ensures |t| <= |s|
  {
    if s == [] || IsBlank(s[0]) then [] else [s[0]] + Token(s[1..])
  }

  /** `check`, blanks, a kind, blanks and an id at the start. */
  function HeaderHere(s: string): Option<Header> {
    if !LeadsWith(s, Check) || |s| == 5 || !IsBlank(s[5]) then None
    else
      var afterCheck := DropBlank(s[5..]);
      var kind := Token(afterCheck);
      var afterKind := DropBlank(afterCheck[|kind|..]);
      var id := Token(afterKind);
      if kind == [] || id == [] then None else Some(Header(kind, id))
  }

  /** newCheckFromData: the first line of the directive that has a header. */
  function ParseHeader(config: string): Option<Header>
    decreases |config|
  {
    if HeaderHere(config).Some? then HeaderHere(config)
    else
      var n := NewlineFrom(config, 0);
      if n == |config| then None else ParseHeader(config[n + 1..])
  }

  /** parseInclude: the rest of the line after `include` and blanks. */
  function Pattern(config: string): string {
    if |config| <= 7 || !IsBlank(config[7]) then ""
    else
      var rest := DropBlank(config[7..]);
      rest[..NewlineFrom(rest, 0)]
  }

  function GlobOf(env: Env, d: Directive): Glob {
    var pattern := Pattern(d.config);
    if pattern in env.globs then env.globs[pattern] else Matches([])
  }

  /** The empty name stands for the working directory, which is not a file. */
  predicate IsReadable(env: Env, f: string) {
    f != "" && f in env.files
  }

  function DirectivesOf(env: Env, f: string): seq<Directive>
    requires f in env.files
  {
    Split(Cleaner.Clean(env.files[f]))
  }

  // ----- includes are acyclic -----

  function RankOf(env: Env, f: string): nat {
    if f in env.files && f in env.rank then env.rank[f] + 1 else 0
  }

  predicate FilesBelow(env: Env, fs: seq<string>, r: nat) {
    forall f <- fs :: RankOf(env, f) < r
  }

  predicate IncludesBelow(env: Env, ds: seq<Directive>, r: nat) {
    forall d <- ds :: d.keyword == Include && GlobOf(env, d).Matches? ==> FilesBelow(env, GlobOf(env, d).files, r)
  }

  predicate Acyclic(env: Env) {
    forall f <- env.files :: f in env.rank && IncludesBelow(env, DirectivesOf(env, f), RankOf(env, f))
  }

  // ----- parsing with a walker -----

  /** The state of the walker that a parse drives. */
  datatype Walker = Live(reg: Registry) | Dry(ids: seq<string>, success: bool)

  /** AddCheck of the loader and of the validator. */
  function AddTo(w: Walker, id: string): (Walker, Outcome) {
    match w
    case Live(reg) =>
      var (reg', ok) := Add(reg, id);
      (Live(reg'), if ok then Done else Conflict(id))
    case Dry(ids, success) =>
      if id in ids then (Dry(ids, false), Conflict(id)) else (Dry(ids + [id], success), Done)
  }

  /** One directive; the errors of included files are dropped. */
  function ProcessOne(env: Env, d: Directive, w: Walker, r: nat): (Walker, Outcome)
    requires Acyclic(env) && IncludesBelow(env, [d], r)
    decreases r, 1, 0
  {
    match d.keyword
    case Include =>
      (match GlobOf(env, d)
       case BadPattern => (w, BadGlob)
       case Matches(fs) => assert d in [d]; (ParseFiles(env, fs, w, r), Done))
    case Check =>
      (match ParseHeader(d.config)
       case None => (w, BadCheck)
       case Some(h) => AddTo(w, h.id))
    case Set => (w, Done)
  }

  /** The directives of one text, from the first on, up to the first error. */
  function Process(env: Env, ds: seq<Directive>, w: Walker, r: nat): (Walker, Outcome)
    requires Acyclic(env) && IncludesBelow(env, ds, r)
    decreases r, 1, |ds|
  {
    if ds == [] then (w, Done)
    else
      var (w', o) := ProcessOne(env, ds[0], w, r);
      if o != Done then (w', o) else Process(env, ds[1..], w', r)
  }

  function ParseFiles(env: Env, fs: seq<string>, w: Walker, r: nat): Walker
    requires Acyclic(env) && FilesBelow(env, fs, r)
    decreases r, 0, |fs|
  {
    if fs == [] then w else ParseFiles(env, fs[1..], ParseFile(env, fs[0], w).0, r)
  }

  function ParseFile(env: Env, f: string, w: Walker): (Walker, Outcome)
    requires Acyclic(env)
    decreases RankOf(env, f)
  {
    if !IsReadable(env, f) then (w, ReadError) else Process(env, DirectivesOf(env, f), w, RankOf(env, f))
  }

  // ----- the two walkers stay in lockstep -----

  predicate Lockstep(live: Walker, dry: Walker) {
    live.Live? && dry.Dry? && Ids(live.reg) == dry.ids
  }

  lemma AddInLockstep(live: Walker, dry: Walker, id: string)
    requires Lockstep(live, dry)
    ensures Lockstep(AddTo(live, id).0, AddTo(dry, id).0) && AddTo(live, id).1 == AddTo(dry, id).1
  {
    IdsAppend(live.reg.checks, CheckView(id, Lookup(live.reg.saved, id)));
  }

  lemma {:induction false} ProcessInLockstep(env: Env, ds: seq<Directive>, live: Walker, dry: Walker, r: nat)
    requires Acyclic(env) && IncludesBelow(env, ds, r) && Lockstep(live, dry)
    ensures Lockstep(Process(env, ds, live, r).0, Process(env, ds, dry, r).0)
    ensures Process(env, ds, live, r).1 == Process(env, ds, dry, r).1
    decreases r, 1, |ds|
  {
    if ds != [] {
      match ds[0].keyword
      case Include =>
        if GlobOf(env, ds[0]).Matches? {
          var fs := GlobOf(env, ds[0]).files;
          FilesInLockstep(env, fs, live, dry, r);
          ProcessInLockstep(env, ds[1..], ParseFiles(env, fs, live, r), ParseFiles(env, fs, dry, r), r);
        }
      case Check =>
        var h := ParseHeader(ds[0].config);
        if h.Some? {
          AddInLockstep(live, dry, h.value.id);
          if AddTo(live, h.value.id).1 == Done {
            ProcessInLockstep(env, ds[1..], AddTo(live, h.value.id).0, AddTo(dry, h.value.id).0, r);
          }
        }
      case Set =>
        ProcessInLockstep(env, ds[1..], live, dry, r);
    }
  }

  lemma {:induction false} FilesInLockstep(env: Env, fs: seq<string>, live: Walker, dry: Walker, r: nat)
    requires Acyclic(env) && FilesBelow(env, fs, r) && Lockstep(live, dry)
    ensures Lockstep(ParseFiles(env, fs, live, r), ParseFiles(env, fs, dry, r))
    decreases r, 0, |fs|
  {
    if fs != [] {
      FileInLockstep(env, fs[0], live, dry);
      FilesInLockstep(env, fs[1..], ParseFile(env, fs[0], live).0, ParseFile(env, fs[0], dry).0, r);
    }
  }

  /** Whatever the files contain, and at every level of inclusion, the loader and
      the validator register the same ids in the same order and report the same
      outcome when they start with the same ids. */
  lemma {:induction false} FileInLockstep(env: Env, f: string, live: Walker, dry: Walker)
    requires Acyclic(env) && Lockstep(live, dry)
    ensures Lockstep(ParseFile(env, f, live).0, ParseFile(env, f, dry).0)
    ensures ParseFile(env, f, live).1 == ParseFile(env, f, dry).1
    decreases RankOf(env, f)
  {
    if IsReadable(env, f) {
      ProcessInLockstep(env, DirectivesOf(env, f), live, dry, RankOf(env, f));
    }
  }

  // ----- what a configuration declares -----

  /** The ids that the files declare, duplicates included, up to the first
      malformed check or bad pattern of each file. */
  function Declared(env: Env, ds: seq<Directive>, r: nat): seq<string>
    requires Acyclic(env) && IncludesBelow(env, ds, r)
    decreases r, 1, |ds|
  {
    if ds == [] then []
    else
      match ds[0].keyword
      case Include =>
        (match GlobOf(env, ds[0])
         case BadPattern => []
         case Matches(fs) => DeclaredInFiles(env, fs, r) + Declared(env, ds[1..], r))
      case Check =>
        (match ParseHeader(ds[0].config)
         case None => []
         case Some(h) => [h.id] + Declared(env, ds[1..], r))
      case Set => Declared(env, ds[1..], r)
  }

  function DeclaredInFiles(env: Env, fs: seq<string>, r: nat): seq<string>
    requires Acyclic(env) && FilesBelow(env, fs, r)
    decreases r, 0, |fs|
  {
    if fs == [] then [] else DeclaredInFile(env, fs[0]) + DeclaredInFiles(env, fs[1..], r)
  }

  function DeclaredInFile(env: Env, f: string): seq<string>
    requires Acyclic(env)
    decreases RankOf(env, f)
  {
    if !IsReadable(env, f) then [] else Declared(env, DirectivesOf(env, f), RankOf(env, f))
  }

  /** The validator after it met `more` in addition to `ids`: all of them when no
      id repeats, otherwise marked unsuccessful. Its list never repeats an id. */
  predicate Validated(w: Walker, ids: seq<string>, success: bool, more: seq<string>) {
    && w.Dry? && Unique(w.ids)
    && w.success == (success && Unique(ids + more))
    && (w.success ==> w.ids == ids + more)
  }

  lemma UniquePrefix(a: seq<string>, b: seq<string>)
    requires Unique(a + b)
    ensures Unique(a) && Unique(b)
  {
    var all := a + b;
    assert forall i :: 0 <= i < |a| ==> a[i] == all[i];
    assert forall i :: 0 <= i < |b| ==> b[i] == all[|a| + i];
  }

  lemma UniqueAppend(ids: seq<string>, id: string)
    requires Unique(ids)
    ensures Unique(ids + [id]) <==> id !in ids
  {
    if id in ids {
      var i :| 0 <= i < |ids| && ids[i] == id;
      assert (ids + [id])[i] == (ids + [id])[|ids|];
    }
  }

  /** Meeting `a` and then `b` is meeting `a + b`. */
  lemma ValidatedThen(w: Walker, w': Walker, ids: seq<string>, success: bool, a: seq<string>, b: seq<string>)
    requires Validated(w, ids, success, a) && Validated(w', w.ids, w.success, b)
    ensures Validated(w', ids, success, a + b)
  {
    assert (ids + a) + b == ids + (a + b);
    if Unique(ids + (a + b)) {
      UniquePrefix(ids + a, b);
    }
  }

  lemma AddValidated(ids: seq<string>, success: bool, id: string)
    requires Unique(ids)
    ensures Validated(AddTo(Dry(ids, success), id).0, ids, success, [id])
  {
    UniqueAppend(ids, id);
  }

  lemma {:induction false} ProcessValidated(env: Env, ds: seq<Directive>, ids: seq<string>, success: bool, r: nat)
    requires Acyclic(env) && IncludesBelow(env, ds, r) && Unique(ids)
    ensures Validated(Process(env, ds, Dry(ids, success), r).0, ids, success, Declared(env, ds, r))
    decreases r, 1, |ds|
  {
    var w := Dry(ids, success);
    if ds == [] {
      assert ids + [] == ids;
    } else {
      var w' := Process(env, ds, w, r).0;
      var rest := ds[1..];
      match ds[0].keyword
      case Include =>
        match GlobOf(env, ds[0]) {
          case BadPattern => assert ids + [] == ids;
          case Matches(fs) =>
            FilesValidated(env, fs, ids, success, r);
            var w1 := ParseFiles(env, fs, w, r);
            ProcessValidated(env, rest, w1.ids, w1.success, r);
            assert ProcessOne(env, ds[0], w, r) == (w1, Done);
            assert w' == Process(env, rest, w1, r).0;
            ValidatedThen(w1, w', ids, success, DeclaredInFiles(env, fs, r), Declared(env, rest, r));
        }
      case Check =>
        match ParseHeader(ds[0].config) {
          case None => assert ids + [] == ids;
          case Some(h) =>
            CheckValidated(env, ds, ids, success, r, h.id);
        }
      case Set =>
        ProcessValidated(env, rest, ids, success, r);
    }
  }

  lemma {:induction false} CheckValidated(env: Env, ds: seq<Directive>, ids: seq<string>, success: bool, r: nat,
                                          id: string)
    requires Acyclic(env) && IncludesBelow(env, ds, r) && Unique(ids) && ds != []
    requires ds[0].keyword == Check && ParseHeader(ds[0].config).Some? && ParseHeader(ds[0].config).value.id == id
    ensures Validated(Process(env, ds, Dry(ids, success), r).0, ids, success, Declared(env, ds, r))
    decreases r, 1, |ds|, 0
  {
    var (w1, o) := AddTo(Dry(ids, success), id);
    var more := Declared(env, ds[1..], r);
    AddValidated(ids, success, id);
    assert ProcessOne(env, ds[0], Dry(ids, success), r) == (w1, o);
    if o == Done {
      ProcessValidated(env, ds[1..], w1.ids, w1.success, r);
      ValidatedThen(w1, Process(env, ds, Dry(ids, success), r).0, ids, success, [id], more);
    } else if Unique(ids + ([id] + more)) {
      assert ids + ([id] + more) == (ids + [id]) + more;
      UniquePrefix(ids + [id], more);
    }
  }

  lemma {:induction false} FilesValidated(env: Env, fs: seq<string>, ids: seq<string>, success: bool, r: nat)
    requires Acyclic(env) && FilesBelow(env, fs, r) && Unique(ids)
    ensures Validated(ParseFiles(env, fs, Dry(ids, success), r), ids, success, DeclaredInFiles(env, fs, r))
    decreases r, 0, |fs|
  {
    if fs == [] {
      assert ids + [] == ids;
    } else {
      FileValidated(env, fs[0], ids, success);
      var w1 := ParseFile(env, fs[0], Dry(ids, success)).0;
      FilesValidated(env, fs[1..], w1.ids, w1.success, r);
      ValidatedThen(w1, ParseFiles(env, fs, Dry(ids, success), r), ids, success,
                    DeclaredInFile(env, fs[0]), DeclaredInFiles(env, fs[1..], r));
    }
  }

  /** Validation succeeds exactly when the declared ids do not repeat, and then the
      validator has collected exactly the declared ids, in order. */
  lemma {:induction false} FileValidated(env: Env, f: string, ids: seq<string>, success: bool)
    requires Acyclic(env) && Unique(ids)
    ensures Validated(ParseFile(env, f, Dry(ids, success)).0, ids, success, DeclaredInFile(env, f))
    decreases RankOf(env, f)
  {
    if IsReadable(env, f) {
      ProcessValidated(env, DirectivesOf(env, f), ids, success, RankOf(env, f));
    } else {
      assert ids + [] == ids;
    }
  }

  // ----- errors that are not conflicts -----

  /** A directive that ends the parse of its text, whatever ids are registered. */
  predicate Faulty(env: Env, d: Directive) {
    || (d.keyword == Include && GlobOf(env, d).BadPattern?)
    || (d.keyword == Check && ParseHeader(d.config) == None)
  }

  predicate HasFault(env: Env, ds: seq<Directive>) {
    exists d <- ds :: Faulty(env, d)
  }

  lemma FaultFirst(env: Env, ds: seq<Directive>)
    requires ds != []
    ensures HasFault(env, ds) <==> Faulty(env, ds[0]) || HasFault(env, ds[1..])
  {
    assert ds == [ds[0]] + ds[1..];
  }

  /** When no id repeats, a validation ends without error exactly when its own text
      has no faulty directive; faults of included files do not count. */
  lemma {:induction false} DoneIffNoFault(env: Env, ds: seq<Directive>, ids: seq<string>, r: nat)
    requires Acyclic(env) && IncludesBelow(env, ds, r) && Unique(ids + Declared(env, ds, r))
    ensures Process(env, ds, Dry(ids, true), r).1 == Done <==> !HasFault(env, ds)
    decreases |ds|
  {
    if ds != [] {
      var rest := ds[1..];
      FaultFirst(env, ds);
      UniquePrefix(ids, Declared(env, ds, r));
      match ds[0].keyword
      case Include =>
        if GlobOf(env, ds[0]).Matches? {
          IncludeDone(env, ds, ids, r, GlobOf(env, ds[0]).files);
        }
      case Check =>
        var h := ParseHeader(ds[0].config);
        if h.Some? {
          assert ids + Declared(env, ds, r) == (ids + [h.value.id]) + Declared(env, rest, r);
          UniquePrefix(ids + [h.value.id], Declared(env, rest, r));
          UniqueAppend(ids, h.value.id);
          assert ProcessOne(env, ds[0], Dry(ids, true), r) == (Dry(ids + [h.value.id], true), Done);
          DoneIffNoFault(env, rest, ids + [h.value.id], r);
        }
      case Set =>
        DoneIffNoFault(env, rest, ids, r);
    }
  }

  lemma {:induction false} IncludeDone(env: Env, ds: seq<Directive>, ids: seq<string>, r: nat, fs: seq<string>)
    requires Acyclic(env) && IncludesBelow(env, ds, r) && Unique(ids + Declared(env, ds, r)) && Unique(ids)
    requires ds != [] && ds[0].keyword == Include && GlobOf(env, ds[0]) == Matches(fs)
    ensures Process(env, ds, Dry(ids, true), r).1 == Done <==> !HasFault(env, ds[1..])
    decreases |ds|, 0
  {
    var rest, more := ds[1..], DeclaredInFiles(env, fs, r);
    var w1 := ParseFiles(env, fs, Dry(ids, true), r);
    FilesValidated(env, fs, ids, true, r);
    assert ids + Declared(env, ds, r) == (ids + more) + Declared(env, rest, r);
    UniquePrefix(ids + more, Declared(env, rest, r));
    assert w1 == Dry(ids + more, true);
    assert ProcessOne(env, ds[0], Dry(ids, true), r) == (w1, Done);
    DoneIffNoFault(env, rest, ids + more, r);
  }

  // ----- the live registry -----

  /** What a parse keeps of the live registry. */
  ghost predicate LiveInvariant(w: Walker, origin: map<string, bool>) {
    w.Live? && Invariant(w.reg) && RestoredFrom(w.reg, origin)
  }

  lemma {:induction false} ProcessKeepsLive(env: Env, ds: seq<Directive>, w: Walker, r: nat, origin: map<string, bool>)
    requires Acyclic(env) && IncludesBelow(env, ds, r) && LiveInvariant(w, origin)
    ensures LiveInvariant(Process(env, ds, w, r).0, origin)
    decreases r, 1, |ds|
  {
    if ds != [] {
      match ds[0].keyword
      case Include =>
        if GlobOf(env, ds[0]).Matches? {
          FilesKeepLive(env, GlobOf(env, ds[0]).files, w, r, origin);
          ProcessKeepsLive(env, ds[1..], ParseFiles(env, GlobOf(env, ds[0]).files, w, r), r, origin);
        }
      case Check =>
        var h := ParseHeader(ds[0].config);
        if h.Some? {
          AddKeepsInvariant(w.reg, h.value.id);
          AddRestores(w.reg, h.value.id, origin);
          if AddTo(w, h.value.id).1 == Done {
            ProcessKeepsLive(env, ds[1..], AddTo(w, h.value.id).0, r, origin);
          }
        }
      case Set =>
        ProcessKeepsLive(env, ds[1..], w, r, origin);
    }
  }

  lemma {:induction false} FilesKeepLive(env: Env, fs: seq<string>, w: Walker, r: nat, origin: map<string, bool>)
    requires Acyclic(env) && FilesBelow(env, fs, r) && LiveInvariant(w, origin)
    ensures LiveInvariant(ParseFiles(env, fs, w, r), origin)
    decreases r, 0, |fs|
  {
    if fs != [] {
      FileKeepsLive(env, fs[0], w, origin);
      FilesKeepLive(env, fs[1..], ParseFile(env, fs[0], w).0, r, origin);
    }
  }

  lemma {:induction false} FileKeepsLive(env: Env, f: string, w: Walker, origin: map<string, bool>)
    requires Acyclic(env) && LiveInvariant(w, origin)
    ensures LiveInvariant(ParseFile(env, f, w).0, origin)
    decreases RankOf(env, f)
  {
    if IsReadable(env, f) {
      ProcessKeepsLive(env, DirectivesOf(env, f), w, RankOf(env, f), origin);
    }
  }
}
