/** When concurrent UpdateDatabase runs can deadlock: never over a fixed list of
    checks with unique ids, and next to a Reload exactly when the new list has
    two of the old ids in the opposite order. */
module Deadlocks {
  import opened Machines
  import opened Updates

  predicate UniqueIds(list: seq<Ref>) {
    forall i, j :: 0 <= i < j < |list| ==> list[i].id != list[j].id
  }

  /** Two ids stand in one order in `a` and in the other order in `b`. */
  ghost predicate Opposed(a: seq<Ref>, b: seq<Ref>) {
    exists i, j, k, l :: OpposedAt(a, b, i, j, k, l)
  }

  predicate OpposedAt(a: seq<Ref>, b: seq<Ref>, i: int, j: int, k: int, l: int) {
    && 0 <= i < j < |a| && 0 <= k < l < |b|
    && a[i].id == b[l].id && a[j].id == b[k].id
  }

  /** Run `t` waits for an entry that run `u` has locked. */
  predicate WaitsFor(s: State, t: nat, u: nat) {
    && t < |s.threads| && s.threads[t].pc.Locking?
    && s.threads[t].pc.e < |s.heap| && s.heap[s.threads[t].pc.e].owner == Update(u)
  }

  ghost predicate WaitsWithin(s: State, t: nat, d: set<nat>) {
    exists u: nat :: u in d && WaitsFor(s, t, u)
  }

  /** A set of runs each of which waits for one of the set: none of them can ever
      go on. */
  ghost predicate Deadlock(s: State, d: set<nat>) {
    d != {} && forall t {:trigger WaitsWithin(s, t, d)} :: t in d ==> WaitsWithin(s, t, d)
  }

  // ----- freedom -----

  predicate Along(s: State, list: seq<Ref>, t: nat) {
    t < |s.threads| && s.threads[t].list <= list
  }

  function At(s: State, t: nat): nat {
    if t < |s.threads| then s.threads[t].at else 0
  }

  lemma {:induction false} Furthest(s: State, d: set<nat>) returns (t: nat)
    requires d != {}
    ensures t in d && forall u <- d :: At(s, u) <= At(s, t)
    decreases |d|
  {
    t :| t in d;
    if d != {t} {
      var t' := Furthest(s, d - {t});
      if At(s, t) <= At(s, t') {
        t := t';
      }
    }
  }

  /** What a run waits for is held further along the list of the holder. */
  lemma HeldFurther(s: State, t: nat, u: nat) returns (k: nat)
    requires Structured(s) && WaitsFor(s, t, u)
    ensures u < |s.threads| && s.threads[t].at < |s.threads[t].list|
    ensures k < |s.threads[u].held| && k < |s.threads[u].list|
    ensures s.threads[u].list[k].id == s.threads[t].list[s.threads[t].at].id
    ensures s.threads[u].pc.Locking? ==> k < s.threads[u].at < |s.threads[u].list|
  {
    var e := s.threads[t].pc.e;
    assert Sound(s.heap, t, s.threads[t]);
    assert OwnerKnows(s, e);
    k :| 0 <= k < |s.threads[u].held| && s.threads[u].held[k] == e;
    assert Sound(s.heap, u, s.threads[u]);
    assert Holds(s.heap, u, s.threads[u], k);
  }

  /** Along one list, the holder of the entry that a run waits for is further on. */
  lemma HolderIsAhead(s: State, t: nat, u: nat, a: seq<Ref>)
    requires Structured(s) && UniqueIds(a) && Along(s, a, t) && Along(s, a, u)
    requires WaitsFor(s, t, u) && s.threads[u].pc.Locking?
    ensures At(s, t) < At(s, u)
  {
    var k := HeldFurther(s, t, u);
    assert a[k].id == a[At(s, t)].id;
  }

  lemma HolderAcross(s: State, t: nat, u: nat, a: seq<Ref>, b: seq<Ref>) returns (k: nat)
    requires Structured(s) && Along(s, a, t) && Along(s, b, u)
    requires WaitsFor(s, t, u) && s.threads[u].pc.Locking?
    ensures At(s, t) < |a| && k < At(s, u) < |b| && b[k].id == a[At(s, t)].id
  {
    k := HeldFurther(s, t, u);
  }

  /** The furthest run of a deadlock along one list waits for a run along the
      other, which has locked that entry further up. */
  lemma WaitsAcross(s: State, d: set<nat>, a: seq<Ref>, b: seq<Ref>, some: nat) returns (t: nat, u: nat, k: nat)
    requires Structured(s) && Deadlock(s, d) && UniqueIds(a)
    requires forall t <- d :: Along(s, a, t) || Along(s, b, t)
    requires some in d && Along(s, a, some)
    ensures t in d && Along(s, a, t) && forall v <- d :: Along(s, a, v) ==> At(s, v) <= At(s, t)
    ensures u in d && Along(s, b, u) && At(s, t) < |a|
    ensures k < At(s, u) < |b| && b[k].id == a[At(s, t)].id
  {
    var along := set v | v in d && Along(s, a, v);
    assert some in along;
    t := Furthest(s, along);
    assert WaitsWithin(s, t, d);
    u :| u in d && WaitsFor(s, t, u);
    assert WaitsWithin(s, u, d);
    if Along(s, a, u) {
      HolderIsAhead(s, t, u, a);
    }
    k := HolderAcross(s, t, u, a, b);
  }

  lemma NoDeadlock(s: State, d: set<nat>, a: seq<Ref>, b: seq<Ref>)
    requires Structured(s) && UniqueIds(a) && UniqueIds(b) && !Opposed(a, b)
    requires forall t: nat :: t < |s.threads| ==> Along(s, a, t) || Along(s, b, t)
    ensures !Deadlock(s, d)
  {
    if Deadlock(s, d) {
      forall t <- d
        ensures Along(s, a, t) || Along(s, b, t)
      {
        assert WaitsWithin(s, t, d);
      }
      var some :| some in d;
      if Along(s, a, some) {
        AcrossBothWays(s, d, a, b, some);
      } else {
        AcrossBothWays(s, d, b, a, some);
      }
    }
  }

  lemma AcrossBothWays(s: State, d: set<nat>, a: seq<Ref>, b: seq<Ref>, some: nat)
    requires Structured(s) && Deadlock(s, d) && UniqueIds(a) && UniqueIds(b)
    requires forall t <- d :: Along(s, a, t) || Along(s, b, t)
    requires some in d && Along(s, a, some)
    ensures Opposed(a, b) && Opposed(b, a)
  {
    var t, u, k := WaitsAcross(s, d, a, b, some);
    var v, w, i := WaitsAcross(s, d, b, a, u);
    assert OpposedAt(a, b, i, At(s, t), k, At(s, v));
    assert OpposedAt(b, a, k, At(s, v), i, At(s, t));
  }

  // ----- progress -----

  /** IsMonitored does not panic: the flags of all checks in use are set. */
  predicate FlagsSet(s: State) {
    && (forall ref <- s.checks :: ref in s.flags)
    && (forall th <- s.threads :: forall ref <- th.list :: ref in s.flags)
    && (s.load.at < |s.load.list| && !s.load.pc.Clearing? && !s.load.pc.Finding? ==> s.load.list[s.load.at] in s.flags)
  }

  lemma RunKeepsFlagsSet(s: State, step: Step)
    requires FlagsSet(s) && !step.Load? && Next(s, step).Some?
    ensures FlagsSet(Next(s, step).value)
  {
    RunFrame(s, step);
    var s' := Next(s, step).value;
    forall th | th in s'.threads
      ensures forall ref <- th.list :: ref in s'.flags
    {
      assert th == s'.threads[step.t] || th in s.threads;
      assert s.threads[step.t] in s.threads;
    }
  }

  lemma StepKeepsFlagsSet(s: State, step: Step)
    requires FlagsSet(s) && Next(s, step).Some?
    ensures FlagsSet(Next(s, step).value)
  {
    if step != Load {
      RunKeepsFlagsSet(s, step);
    }
  }

  function Unfinished(s: State): set<nat> {
    set t: nat | t < |s.threads| && s.threads[t].pc != Done
  }

  ghost predicate CanStep(s: State, t: nat) {
    Next(s, Go(t)).Some? || exists key :: Next(s, Visit(t, key)).Some?
  }

  /** An unfinished run can step or waits for a lock. */
  lemma StepsOrWaits(s: State, t: nat) returns (u: nat)
    requires Structured(s) && FlagsSet(s) && t in Unfinished(s) && LoadNext(s) == None
    ensures CanStep(s, t) || (WaitsFor(s, t, u) && u in Unfinished(s))
  {
    var th := s.threads[t];
    u := t;
    assert Sound(s.heap, t, th);
    assert th in s.threads;
    if th.held != [] {
      assert Holds(s.heap, t, th, |th.held| - 1);
    }
    if th.pc.Locking? && s.heap[th.pc.e].owner != Nobody {
      assert OwnerKnows(s, th.pc.e);
      u := s.heap[th.pc.e].owner.t;
      assert Sound(s.heap, u, s.threads[u]);
    } else if th.pc.Deleting? && th.pc.keys != {} {
      var key :| key in th.pc.keys;
      assert Next(s, Visit(t, key)).Some?;
    } else if th.pc.Encoding? && th.pc.rest != {} {
      var key :| key in th.pc.rest;
      assert Next(s, Visit(t, key)).Some?;
    }
  }

  /** Without a deadlock, some run or the Reload can step while a run is
      unfinished. */
  lemma SomeRunSteps(s: State)
    requires Structured(s) && FlagsSet(s) && !Deadlock(s, Unfinished(s)) && Unfinished(s) != {}
    ensures LoadNext(s).Some? || exists t :: t in Unfinished(s) && CanStep(s, t)
  {
    if LoadNext(s) == None && forall t :: t in Unfinished(s) ==> !CanStep(s, t) {
      forall t | t in Unfinished(s)
        ensures WaitsWithin(s, t, Unfinished(s))
      {
        var u := StepsOrWaits(s, t);
      }
    }
  }
}
