/** The exclusion lock of module DoOnce under an ideal clock. A timer may fire
    from its due time on, a callback ends at the latest when its work is over,
    and the deferred cleanup takes no time. */
module TimedDoOnce {
  import opened Machines
  import DoOnce
  import Checks
  import Pids

  /** What requests of one id may do: the expiry timeout that `doOnce` is given
      and the longest durations of the callbacks. */
  datatype Terms = Terms(limit: nat, works: set<nat>)

  /** When a request armed its timer and how long its callback may run. */
  datatype Clock = Clock(armedAt: nat, work: nat)

  datatype State = State(terms: map<string, Terms>, lock: DoOnce.State, now: nat, clocks: seq<Clock>)

  /** `Act` does a step of the lock; `work` is the duration of an accepted Take. */
  datatype Step = Tick | Act(step: DoOnce.Step, work: nat)

  function Start(terms: map<string, Terms>): State {
    State(terms, DoOnce.INITIAL, 0, [])
  }

  /** Time passes only while no callback is due and no cleanup is under way. */
  predicate MayTick(job: DoOnce.Job, clock: Clock, now: nat) {
    match job.phase
    case Running => now < clock.armedAt + clock.work
    case Returned => false
    case TimerStopped => false
    case _ => true
  }

  function Next(t: State, a: Step): Option<State> {
    if |t.clocks| != |t.lock.jobs| then None
    else
      match a
      case Tick =>
        if forall j :: 0 <= j < |t.clocks| ==> MayTick(t.lock.jobs[j], t.clocks[j], t.now)
        then Some(t.(now := t.now + 1)) else None
      case Act(step, work) =>
        match DoOnce.Next(t.lock, step)
        case None => None
        case Some(lock') => if Timely(t, step, work) then Some(Advance(t, step, work, lock')) else None
  }

  predicate Timely(t: State, step: DoOnce.Step, work: nat)
    requires |t.clocks| == |t.lock.jobs| && DoOnce.Next(t.lock, step).Some?
  {
    match step
    case Take(id) => id in t.terms && work in t.terms[id].works
    case Fire(j) =>
      var id := t.lock.jobs[j].id;
      id in t.terms && t.now >= t.clocks[j].armedAt + t.terms[id].limit
    case _ => true
  }

  function Advance(t: State, step: DoOnce.Step, work: nat, lock': DoOnce.State): State
    requires |t.clocks| == |t.lock.jobs| && DoOnce.Next(t.lock, step) == Some(lock')
  {
    var t' := t.(lock := lock');
    match step
    case Take(_) => if lock' == t.lock then t' else t'.(clocks := t.clocks + [Clock(t.now, work)])
    case Arm(j) => t'.(clocks := t.clocks[j := t.clocks[j].(armedAt := t.now)])
    case _ => t'
  }

  /** Forgetting the clock gives a run of the untimed lock. */
  lemma {:induction false} Untimed(t: State, steps: seq<Step>)
    requires Run(Next, t, steps).Some?
    ensures Reaches(DoOnce.Next, t.lock, Run(Next, t, steps).value.lock)
    decreases |steps|
  {
    if steps == [] {
      assert Run(DoOnce.Next, t.lock, []) == Some(t.lock);
    } else {
      var t1 := Next(t, steps[0]).value;
      Untimed(t1, steps[1..]);
      if steps[0].Act? {
        Reaches1(DoOnce.Next, t.lock, steps[0].step);
        ReachesThen(DoOnce.Next, t.lock, t1.lock, Run(Next, t, steps).value.lock);
      }
    }
  }

  // ----- punctual callbacks: the timer never fires -----

  predicate Punctual(terms: map<string, Terms>, id: string) {
    id in terms && forall work <- terms[id].works :: work < terms[id].limit
  }

  predicate OnTime(job: DoOnce.Job, clock: Clock, now: nat, terms: Terms) {
    && clock.work in terms.works
    && job.timer != DoOnce.Fired && job.timer != DoOnce.Expired
    && (job.timer == DoOnce.Armed ==> job.phase == DoOnce.Running || job.phase == DoOnce.Returned)
    && (job.phase == DoOnce.Running || job.phase == DoOnce.Returned ==> now <= clock.armedAt + clock.work)
  }

  ghost predicate AllOnTime(t: State, terms: map<string, Terms>, id: string) {
    && t.terms == terms && |t.clocks| == |t.lock.jobs|
    && Punctual(terms, id)
    && forall j :: 0 <= j < |t.clocks| && t.lock.jobs[j].id == id ==>
         OnTime(t.lock.jobs[j], t.clocks[j], t.now, terms[id])
  }

  lemma TickStaysOnTime(t: State, terms: map<string, Terms>, id: string)
    requires AllOnTime(t, terms, id) && Next(t, Tick).Some?
    ensures AllOnTime(Next(t, Tick).value, terms, id)
  {
    forall j | 0 <= j < |t.clocks| && t.lock.jobs[j].id == id
      ensures OnTime(t.lock.jobs[j], t.clocks[j], t.now + 1, terms[id])
    {
      assert OnTime(t.lock.jobs[j], t.clocks[j], t.now, terms[id]);
      assert MayTick(t.lock.jobs[j], t.clocks[j], t.now);
    }
  }

  lemma ActStaysOnTime(t: State, step: DoOnce.Step, work: nat, terms: map<string, Terms>, id: string)
    requires AllOnTime(t, terms, id) && Next(t, Act(step, work)).Some?
    ensures AllOnTime(Next(t, Act(step, work)).value, terms, id)
  {
    var t' := Next(t, Act(step, work)).value;
    forall j | 0 <= j < |t'.clocks| && t'.lock.jobs[j].id == id
      ensures OnTime(t'.lock.jobs[j], t'.clocks[j], t'.now, terms[id])
    {
      assert j < |t.clocks| ==> OnTime(t.lock.jobs[j], t.clocks[j], t.now, terms[id]);
    }
  }

  lemma StepStaysOnTime(t: State, a: Step, terms: map<string, Terms>, id: string)
    requires AllOnTime(t, terms, id) && Next(t, a).Some?
    ensures AllOnTime(Next(t, a).value, terms, id)
  {
    match a
    case Tick => TickStaysOnTime(t, terms, id);
    case Act(step, work) => ActStaysOnTime(t, step, work, terms, id);
  }

  lemma {:induction false} NoneExpired(jobs: seq<DoOnce.Job>, id: string)
    requires forall job <- jobs :: job.id == id ==> job.timer != DoOnce.Expired
    ensures DoOnce.Count(jobs, id, DoOnce.HasExpired) == 0
  {
    if jobs != [] {
      NoneExpired(jobs[..|jobs| - 1], id);
    }
  }

  /** With callbacks shorter than the expiry timeout, no timer ever fires and the
      flag is an exact lock: one live request while it is set, none otherwise. */
  lemma PunctualLocksExactly(terms: map<string, Terms>, id: string, steps: seq<Step>)
    requires Punctual(terms, id) && Run(Next, Start(terms), steps).Some?
    ensures
      var lock := Run(Next, Start(terms), steps).value.lock;
      DoOnce.Live(lock, id) == if DoOnce.Free(lock, id) then 0 else 1
  {
    var inv := (t: State) => AllOnTime(t, terms, id);
    forall t: State, a: Step | inv(t) && Next(t, a).Some?
      ensures inv(Next(t, a).value)
    {
      StepStaysOnTime(t, a, terms, id);
    }
    RunKeeps(Next, inv, Start(terms), steps);
    var lock := Run(Next, Start(terms), steps).value.lock;
    assert AllOnTime(Run(Next, Start(terms), steps).value, terms, id);
    NoneExpired(lock.jobs, id);
    Untimed(Start(terms), steps);
    var untimed :| Run(DoOnce.Next, DoOnce.INITIAL, untimed) == Some(lock);
    DoOnce.ExclusionBound(untimed, id);
  }

  // ----- a late callback loses the lock -----

  lemma {:induction false} Wait(t: State, n: nat)
    requires |t.clocks| == |t.lock.jobs| == 1
    requires t.lock.jobs[0].phase == DoOnce.Running && t.now + n <= t.clocks[0].armedAt + t.clocks[0].work
    ensures Reaches(Next, t, t.(now := t.now + n))
    decreases n
  {
    if n == 0 {
      assert Run(Next, t, []) == Some(t);
    } else {
      Reaches1(Next, t, Tick);
      Wait(t.(now := t.now + 1), n - 1);
      ReachesThen(Next, t, t.(now := t.now + 1), t.(now := t.now + n));
    }
  }

  /** The state in which the first request has run for `now`. */
  function RunningFor(terms: map<string, Terms>, id: string, work: nat, now: nat): State {
    State(terms, DoOnce.State(map[id := true], [DoOnce.Job(id, DoOnce.Running, DoOnce.Armed)]), now, [Clock(0, work)])
  }

  lemma ReachRunning(terms: map<string, Terms>, id: string, work: nat)
    requires id in terms && work in terms[id].works
    ensures Reaches(Next, Start(terms), RunningFor(terms, id, work, 0))
  {
    var t0 := Start(terms);
    var t1 := Next(t0, Act(DoOnce.Lookup(id), 0)).value;
    var t2 := Next(t1, Act(DoOnce.Take(id), work)).value;
    var t3 := Next(t2, Act(DoOnce.Arm(0), 0)).value;
    assert t3 == RunningFor(terms, id, work, 0);
    Reaches1(Next, t0, Act(DoOnce.Lookup(id), 0));
    Reaches1(Next, t1, Act(DoOnce.Take(id), work));
    Reaches1(Next, t2, Act(DoOnce.Arm(0), 0));
    ReachesThen(Next, t0, t1, t2);
    ReachesThen(Next, t0, t2, t3);
  }

  lemma LateOverlaps(terms: map<string, Terms>, id: string, work: nat) returns (t: State)
    requires id in terms && work in terms[id].works && work >= terms[id].limit
    ensures Reaches(Next, Start(terms), t) && DoOnce.Live(t.lock, id) == 2
  {
    var t0, t3 := Start(terms), RunningFor(terms, id, work, 0);
    ReachRunning(terms, id, work);
    Wait(t3, terms[id].limit);
    var t4 := RunningFor(terms, id, work, terms[id].limit);
    ReachesThen(Next, t0, t3, t4);
    t := ExpireAndRetake(t4, id, work);
    ReachesThen(Next, t0, t4, t);
  }

  lemma ExpireAndRetake(t: State, id: string, work: nat) returns (t': State)
    requires id in t.terms && work in t.terms[id].works
    requires t == RunningFor(t.terms, id, work, t.terms[id].limit)
    ensures Reaches(Next, t, t') && DoOnce.Live(t'.lock, id) == 2
  {
    var t6 := Expired(t, id);
    t' := Next(t6, Act(DoOnce.Take(id), work)).value;
    Reaches1(Next, t6, Act(DoOnce.Take(id), work));
    ReachesThen(Next, t, t6, t');
    TwoLive(t6.lock, id);
  }

  lemma Expired(t: State, id: string) returns (t': State)
    requires id in t.terms && |t.clocks| == 1 && t.clocks[0].armedAt + t.terms[id].limit <= t.now
    requires t.lock == DoOnce.State(map[id := true], [DoOnce.Job(id, DoOnce.Running, DoOnce.Armed)])
    ensures Reaches(Next, t, t')
    ensures t' == t.(lock := DoOnce.State(map[id := false], [DoOnce.Job(id, DoOnce.Running, DoOnce.Expired)]))
  {
    var t5 := Next(t, Act(DoOnce.Fire(0), 0)).value;
    t' := Next(t5, Act(DoOnce.Expire(0), 0)).value;
    Reaches1(Next, t, Act(DoOnce.Fire(0), 0));
    Reaches1(Next, t5, Act(DoOnce.Expire(0), 0));
    ReachesThen(Next, t, t5, t');
  }

  lemma TwoLive(expired: DoOnce.State, id: string)
    requires expired == DoOnce.State(map[id := false], [DoOnce.Job(id, DoOnce.Running, DoOnce.Expired)])
    ensures DoOnce.Live(DoOnce.Next(expired, DoOnce.Take(id)).value, id) == 2
  {
    DoOnce.TakeCounts(expired, id, id);
    assert expired.jobs[..0] == [];
    assert DoOnce.Count(expired.jobs, id, DoOnce.IsLive) == DoOnce.Count([], id, DoOnce.IsLive) + 1;
  }

  // ----- the exact condition -----

  /** No two requests of `id` are ever at work at the same time. */
  ghost predicate Exclusive(terms: map<string, Terms>, id: string) {
    forall t :: Reaches(Next, Start(terms), t) ==> DoOnce.Live(t.lock, id) <= 1
  }

  /** Exclusion holds exactly when every callback is shorter than the timer. */
  lemma ExclusiveIff(terms: map<string, Terms>, id: string)
    requires id in terms
    ensures Exclusive(terms, id) <==> forall work <- terms[id].works :: work < terms[id].limit
  {
    if Punctual(terms, id) {
      forall t | Reaches(Next, Start(terms), t)
        ensures DoOnce.Live(t.lock, id) <= 1
      {
        var steps :| Run(Next, Start(terms), steps) == Some(t);
        PunctualLocksExactly(terms, id, steps);
      }
    } else {
      var work :| work in terms[id].works && work >= terms[id].limit;
      var t := LateOverlaps(terms, id, work);
    }
  }

  // ----- a callback ends when its work is over -----

  predicate NotOverdue(job: DoOnce.Job, clock: Clock, now: nat) {
    job.phase == DoOnce.Taken || job.phase == DoOnce.Finished || now <= clock.armedAt + clock.work
  }

  predicate NoneOverdue(t: State) {
    && |t.clocks| == |t.lock.jobs|
    && forall j :: 0 <= j < |t.clocks| ==> NotOverdue(t.lock.jobs[j], t.clocks[j], t.now)
  }

  lemma StepNotOverdue(t: State, a: Step)
    requires NoneOverdue(t) && Next(t, a).Some?
    ensures NoneOverdue(Next(t, a).value)
  {
    var t' := Next(t, a).value;
    forall j | 0 <= j < |t'.clocks|
      ensures NotOverdue(t'.lock.jobs[j], t'.clocks[j], t'.now)
    {
      if j < |t.clocks| {
        assert NotOverdue(t.lock.jobs[j], t.clocks[j], t.now);
        assert a.Tick? ==> MayTick(t.lock.jobs[j], t.clocks[j], t.now);
      }
    }
  }

  /** A request whose work is over has finished: none is ever at work after it. */
  lemma NeverOverdue(terms: map<string, Terms>, t: State, j: nat)
    requires Reaches(Next, Start(terms), t) && j < |t.lock.jobs|
    ensures |t.clocks| == |t.lock.jobs| && NotOverdue(t.lock.jobs[j], t.clocks[j], t.now)
  {
    forall s: State, a: Step | NoneOverdue(s) && Next(s, a).Some?
      ensures NoneOverdue(Next(s, a).value)
    {
      StepNotOverdue(s, a);
    }
    var steps :| Run(Next, Start(terms), steps) == Some(t);
    RunKeeps(Next, NoneOverdue, Start(terms), steps);
  }

  /** Only request `j` has moved on, and no time has passed. */
  predicate OnlyMoved(t: State, t': State, j: nat) {
    && t'.terms == t.terms && t'.now == t.now && t'.clocks == t.clocks && |t'.lock.jobs| == |t.lock.jobs|
    && forall k :: 0 <= k < |t.lock.jobs| && k != j ==> t'.lock.jobs[k] == t.lock.jobs[k]
  }

  lemma {:induction false} Finish(t: State, j: nat) returns (t': State)
    requires |t.clocks| == |t.lock.jobs| && j < |t.lock.jobs|
    requires t.lock.jobs[j].phase != DoOnce.Taken && t.lock.jobs[j].phase != DoOnce.Finished
    ensures Reaches(Next, t, t') && OnlyMoved(t, t', j)
    ensures t'.lock.jobs[j].phase == DoOnce.Finished && DoOnce.Free(t'.lock, t.lock.jobs[j].id)
    decreases DoOnce.StepsLeft(t.lock.jobs[j].phase)
  {
    var step := DoOnce.OwnStep(j, t.lock.jobs[j].phase);
    DoOnce.OwnStepRuns(t.lock, j);
    t' := Next(t, Act(step, 0)).value;
    Reaches1(Next, t, Act(step, 0));
    if t'.lock.jobs[j].phase != DoOnce.Finished {
      var t1 := t';
      t' := Finish(t1, j);
      ReachesThen(Next, t, t1, t');
    }
  }

  /** The requests that keep time from passing finish; the others stay as they are. */
  predicate Cleared(t: State, t': State, m: nat) {
    && t'.terms == t.terms && t'.now == t.now && t'.clocks == t.clocks
    && |t'.lock.jobs| == |t.lock.jobs| == |t.clocks|
    && forall k :: 0 <= k < |t.clocks| ==>
         && (MayTick(t.lock.jobs[k], t.clocks[k], t.now) || k >= m ==> t'.lock.jobs[k] == t.lock.jobs[k])
         && (k < m ==> MayTick(t'.lock.jobs[k], t'.clocks[k], t.now))
  }

  lemma {:induction false} ClearDue(t: State, m: nat) returns (t': State)
    requires |t.clocks| == |t.lock.jobs| && m <= |t.clocks|
    ensures Reaches(Next, t, t') && Cleared(t, t', m)
    decreases m
  {
    if m == 0 {
      t' := t;
      assert Run(Next, t, []) == Some(t);
    } else {
      t' := ClearDue(t, m - 1);
      if !MayTick(t'.lock.jobs[m - 1], t'.clocks[m - 1], t'.now) {
        var t1 := t';
        t' := Finish(t1, m - 1);
        ReachesThen(Next, t, t1, t');
      }
    }
  }

  /** Time can pass up to the instant at which the work of a running request ends. */
  lemma {:induction false} PassTime(t: State, j: nat) returns (t': State)
    requires |t.clocks| == |t.lock.jobs| && j < |t.clocks| && t.lock.jobs[j].phase == DoOnce.Running
    requires t.now <= t.clocks[j].armedAt + t.clocks[j].work
    ensures Reaches(Next, t, t') && t'.terms == t.terms && t'.clocks == t.clocks
    ensures |t'.lock.jobs| == |t.lock.jobs| && t'.lock.jobs[j] == t.lock.jobs[j]
    ensures t'.now == t.clocks[j].armedAt + t.clocks[j].work
    decreases t.clocks[j].armedAt + t.clocks[j].work - t.now
  {
    if t.now == t.clocks[j].armedAt + t.clocks[j].work {
      t' := t;
      assert Run(Next, t, []) == Some(t);
    } else {
      var t1 := ClearDue(t, |t.clocks|);
      var t2 := Next(t1, Tick).value;
      Reaches1(Next, t1, Tick);
      ReachesThen(Next, t, t1, t2);
      t' := PassTime(t2, j);
      ReachesThen(Next, t, t2, t');
    }
  }

  /** A running request can finish at the very instant at which its work ends, and
      a new request of its id is accepted at that instant. */
  lemma FinishesWhenDue(terms: map<string, Terms>, t: State, j: nat, work: nat) returns (t': State)
    requires Reaches(Next, Start(terms), t) && j < |t.lock.jobs| && t.lock.jobs[j].phase == DoOnce.Running
    requires
      var id := t.lock.jobs[j].id;
      id in t.terms && work in t.terms[id].works
    ensures |t.clocks| == |t.lock.jobs| && Reaches(Next, t, t')
    ensures t'.now == t.clocks[j].armedAt + t.clocks[j].work
    ensures j < |t'.lock.jobs| && t'.lock.jobs[j].phase == DoOnce.Finished
    ensures
      var id := t.lock.jobs[j].id;
      var next := Run(Next, t', [Act(DoOnce.Lookup(id), 0), Act(DoOnce.Take(id), work)]);
      && next.Some? && next.value.now == t'.now
      && next.value.lock.jobs == t'.lock.jobs + [DoOnce.Job(id, DoOnce.Taken, DoOnce.Unarmed)]
  {
    NeverOverdue(terms, t, j);
    var t1 := PassTime(t, j);
    t' := Finish(t1, j);
    ReachesThen(Next, t, t1, t');
    TakenAtOnce(t', t.lock.jobs[j].id, work);
  }

  lemma TakenAtOnce(t: State, id: string, work: nat)
    requires |t.clocks| == |t.lock.jobs| && DoOnce.Free(t.lock, id)
    requires id in t.terms && work in t.terms[id].works
    ensures
      var next := Run(Next, t, [Act(DoOnce.Lookup(id), 0), Act(DoOnce.Take(id), work)]);
      && next.Some? && next.value.now == t.now
      && next.value.lock.jobs == t.lock.jobs + [DoOnce.Job(id, DoOnce.Taken, DoOnce.Unarmed)]
  {
    var t1 := Next(t, Act(DoOnce.Lookup(id), 0)).value;
    var t2 := Next(t1, Act(DoOnce.Take(id), work)).value;
    RunStep(Next, t1, Act(DoOnce.Take(id), work), []);
    assert [Act(DoOnce.Take(id), work)] + [] == [Act(DoOnce.Take(id), work)];
    RunStep(Next, t, Act(DoOnce.Lookup(id), 0), [Act(DoOnce.Take(id), work)]);
    assert [Act(DoOnce.Lookup(id), 0)] + [Act(DoOnce.Take(id), work)]
        == [Act(DoOnce.Lookup(id), 0), Act(DoOnce.Take(id), work)];
  }

  /** The timeout that CheckOnce and the server give to `doOnce`. */
  function ExpiryTimeout(checkTimeout: nat): nat {
    checkTimeout + 5 * 1000
  }

  /** The operations of one check object under its lock. */
  function CheckTerms(checkTimeout: nat, startTimeout: int, stopTimeout: int): Terms {
    Terms(ExpiryTimeout(checkTimeout),
          set op: Checks.Operation | op in {Checks.Perform, Checks.Start, Checks.Stop, Checks.Restart} ::
            Checks.Longest(op, startTimeout, stopTimeout))
  }

  /** Periodic performs and client commands on one check object never overlap
      exactly when each of them ends before its expiry timeout. */
  lemma OperationsExclusive(uid: string, checkTimeout: nat, startTimeout: int, stopTimeout: int)
    ensures Exclusive(map[uid := CheckTerms(checkTimeout, startTimeout, stopTimeout)], uid)
       <==> forall op :: Checks.Longest(op, startTimeout, stopTimeout) < checkTimeout + 5000
  {
    var terms := CheckTerms(checkTimeout, startTimeout, stopTimeout);
    ExclusiveIff(map[uid := terms], uid);
    forall op: Checks.Operation
      ensures Checks.Longest(op, startTimeout, stopTimeout) in terms.works
    {
      match op
      case Perform =>
      case Start =>
      case Stop =>
      case Restart =>
    }
  }

  /** In particular they never overlap when the stop and start timeouts together
      stay below the check timeout plus five seconds. */
  lemma ShortTimeoutsExclude(uid: string, checkTimeout: nat, startTimeout: nat, stopTimeout: nat)
    requires startTimeout + stopTimeout < checkTimeout + 5000
    ensures Exclusive(map[uid := CheckTerms(checkTimeout, startTimeout, stopTimeout)], uid)
  {
    OperationsExclusive(uid, checkTimeout, startTimeout, stopTimeout);
  }

  // ----- exclusion is per check object -----

  /** Two requests, one of `uid1` and one of `uid2`, are at work. */
  predicate AtWork(jobs: seq<DoOnce.Job>, uid1: string, uid2: string) {
    exists j: nat, k: nat :: j < |jobs| && k < |jobs| && j != k && LiveAs(jobs[j], uid1) && LiveAs(jobs[k], uid2)
  }

  predicate LiveAs(job: DoOnce.Job, uid: string) {
    DoOnce.Counts(job, uid, DoOnce.IsLive)
  }

  /** Both can be at work in a run in which no timer has fired. */
  ghost predicate MayOverlap(terms: map<string, Terms>, uid1: string, uid2: string) {
    exists t ::
      && Reaches(Next, Start(terms), t) && AtWork(t.lock.jobs, uid1, uid2)
      && forall job <- t.lock.jobs :: job.timer != DoOnce.Fired && job.timer != DoOnce.Expired
  }

  lemma {:induction false} TwoCounted(jobs: seq<DoOnce.Job>, j: nat, k: nat, uid: string)
    requires j < k < |jobs| && LiveAs(jobs[j], uid) && LiveAs(jobs[k], uid)
    ensures DoOnce.Count(jobs, uid, DoOnce.IsLive) >= 2
  {
    var n := |jobs| - 1;
    if k == n {
      DoOnce.CountPositive(jobs[..n], j, uid, DoOnce.IsLive);
    } else {
      TwoCounted(jobs[..n], j, k, uid);
    }
  }

  /** The locks of two unique ids do not exclude each other. */
  lemma ReachBoth(terms: map<string, Terms>, uid1: string, uid2: string, work1: nat, work2: nat) returns (t: State)
    requires uid1 in terms && work1 in terms[uid1].works && uid2 in terms && work2 in terms[uid2].works
    requires uid1 != uid2
    ensures Reaches(Next, Start(terms), t) && t.now == 0
    ensures t.lock.jobs == [DoOnce.Job(uid1, DoOnce.Taken, DoOnce.Unarmed),
                            DoOnce.Job(uid2, DoOnce.Taken, DoOnce.Unarmed)]
  {
    var t0 := Start(terms);
    var t1 := Next(t0, Act(DoOnce.Lookup(uid1), 0)).value;
    var t2 := Next(t1, Act(DoOnce.Take(uid1), work1)).value;
    var t3 := Next(t2, Act(DoOnce.Lookup(uid2), 0)).value;
    t := Next(t3, Act(DoOnce.Take(uid2), work2)).value;
    Reaches1(Next, t0, Act(DoOnce.Lookup(uid1), 0));
    Reaches1(Next, t1, Act(DoOnce.Take(uid1), work1));
    Reaches1(Next, t2, Act(DoOnce.Lookup(uid2), 0));
    Reaches1(Next, t3, Act(DoOnce.Take(uid2), work2));
    ReachesThen(Next, t0, t1, t2);
    ReachesThen(Next, t0, t2, t3);
    ReachesThen(Next, t0, t3, t);
  }

  lemma SameIdExcludes(terms: map<string, Terms>, uid: string, t: State)
    requires Punctual(terms, uid) && Reaches(Next, Start(terms), t)
    ensures !AtWork(t.lock.jobs, uid, uid)
  {
    var steps :| Run(Next, Start(terms), steps) == Some(t);
    PunctualLocksExactly(terms, uid, steps);
    if j: nat, k: nat :| j < |t.lock.jobs| && k < |t.lock.jobs| && j != k
                         && LiveAs(t.lock.jobs[j], uid) && LiveAs(t.lock.jobs[k], uid) {
      TwoCounted(t.lock.jobs, if j < k then j else k, if j < k then k else j, uid);
    }
  }

  /** With punctual callbacks, requests of two unique ids can be at work together
      exactly when the ids differ. */
  lemma OverlapIff(terms: map<string, Terms>, uid1: string, uid2: string)
    requires Punctual(terms, uid1) && Punctual(terms, uid2) && terms[uid1].works != {} && terms[uid2].works != {}
    ensures MayOverlap(terms, uid1, uid2) <==> uid1 != uid2
  {
    if uid1 != uid2 {
      var work1 :| work1 in terms[uid1].works;
      var work2 :| work2 in terms[uid2].works;
      var t := ReachBoth(terms, uid1, uid2, work1, work2);
      assert LiveAs(t.lock.jobs[0], uid1) && LiveAs(t.lock.jobs[1], uid2);
    } else {
      forall t | Reaches(Next, Start(terms), t)
        ensures !AtWork(t.lock.jobs, uid1, uid2)
      {
        SameIdExcludes(terms, uid1, t);
      }
    }
  }

  /** So operations on two checks of one service name, such as the objects before
      and after a Reload, can overlap exactly when the objects differ. */
  lemma SameServiceOverlapIff(terms: map<string, Terms>, service: string, address1: nat, address2: nat)
    requires
      var uid1, uid2 := Pids.UniqueID(service, address1), Pids.UniqueID(service, address2);
      Punctual(terms, uid1) && Punctual(terms, uid2) && terms[uid1].works != {} && terms[uid2].works != {}
    ensures MayOverlap(terms, Pids.UniqueID(service, address1), Pids.UniqueID(service, address2))
       <==> address1 != address2
  {
    var uid1, uid2 := Pids.UniqueID(service, address1), Pids.UniqueID(service, address2);
    OverlapIff(terms, uid1, uid2);
    if uid1 == uid2 {
      Pids.UniqueIDIsInjective(service, address1, service, address2);
    }
  }
}
