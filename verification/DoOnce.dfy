/** The per-check exclusion lock of monitor/checks.go: `doOnce` takes a flag,
    runs a callback, and lets both the deferred cleanup and an expiry timer
    release the flag. Its atomic actions are the steps of a machine over any
    number of requests; `CheckStates` below is the table the requests share. */
module DoOnce {
  import opened Machines

  /** Where the goroutine of one accepted request is. */
  datatype Phase = Taken | Running | Returned | TimerStopped | Finished

  /** Its `time.AfterFunc` timer; `Fired` has started its own goroutine,
      `Expired` has also run the cleanup. */
  datatype Timer = Unarmed | Armed | Fired | Expired | Cancelled

  datatype Job = Job(id: string, phase: Phase, timer: Timer)

  /** `jobs` lists the accepted requests in the order in which they took a flag. */
  datatype State = State(flags: map<string, bool>, jobs: seq<Job>)

  datatype Step =
    | Lookup(id: string)
    | Take(id: string)
    | Arm(j: nat)
    | Return(j: nat)
    | StopTimer(j: nat)
    | Release(j: nat)
    | Fire(j: nat)
    | Expire(j: nat)

  const INITIAL := State(map[], [])

  function Next(s: State, step: Step): Option<State> {
    match step
    case Lookup(id) =>
      Some(if id in s.flags then s else s.(flags := s.flags[id := false]))
    case Take(id) =>
      if id !in s.flags then None
      else if s.flags[id] then Some(s)
      else Some(State(s.flags[id := true], s.jobs + [Job(id, Taken, Unarmed)]))
    case _ =>
      if step.j >= |s.jobs| then None else NextOfJob(s, step, s.jobs[step.j])
  }

  function NextOfJob(s: State, step: Step, job: Job): Option<State>
    requires !step.Lookup? && !step.Take? && step.j < |s.jobs| && job == s.jobs[step.j]
  {
    match step
    case Arm(j) =>
      if job.phase != Taken then None else Some(WithJob(s, j, job.(phase := Running, timer := Armed)))
    case Return(j) =>
      if job.phase != Running then None else Some(WithJob(s, j, job.(phase := Returned)))
    case StopTimer(j) =>
      if job.phase != Returned then None
      else
        var timer := if job.timer == Armed then Cancelled else job.timer;
        Some(WithJob(s, j, job.(phase := TimerStopped, timer := timer)))
    case Release(j) =>
      if job.phase != TimerStopped then None
      else Some(WithJob(s, j, job.(phase := Finished)).(flags := s.flags[job.id := false]))
    case Fire(j) =>
      if job.timer != Armed then None else Some(WithJob(s, j, job.(timer := Fired)))
    case Expire(j) =>
      if job.timer != Fired then None
      else Some(WithJob(s, j, job.(timer := Expired)).(flags := s.flags[job.id := false]))
  }

  function WithJob(s: State, j: nat, job: Job): State
    requires j < |s.jobs|
  {
    s.(jobs := s.jobs[j := job])
  }

  // ----- counting -----

  datatype Tally = IsLive | HasExpired

  predicate Counts(job: Job, id: string, t: Tally) {
    job.id == id && if t.IsLive? then job.phase != Finished else job.timer == Expired
  }

  function Count(jobs: seq<Job>, id: string, t: Tally): nat {
    if jobs == [] then 0
    else Count(jobs[..|jobs| - 1], id, t) + (if Counts(jobs[|jobs| - 1], id, t) then 1 else 0)
  }

  /** The accepted requests of `id` that have not done their deferred cleanup. */
  function Live(s: State, id: string): nat {
    Count(s.jobs, id, IsLive)
  }

  /** The timer cleanups executed for `id`. */
  function Expiries(s: State, id: string): nat {
    Count(s.jobs, id, HasExpired)
  }

  predicate Free(s: State, id: string) {
    id !in s.flags || !s.flags[id]
  }

  lemma {:induction false} CountUpdate(jobs: seq<Job>, j: nat, job: Job, id: string, t: Tally)
    requires j < |jobs|
    ensures Count(jobs[j := job], id, t) + (if Counts(jobs[j], id, t) then 1 else 0)
         == Count(jobs, id, t) + (if Counts(job, id, t) then 1 else 0)
  {
    var n := |jobs| - 1;
    var jobs' := jobs[j := job];
    if j == n {
      assert jobs'[..n] == jobs[..n];
    } else {
      CountUpdate(jobs[..n], j, job, id, t);
      assert jobs'[..n] == jobs[..n][j := job];
    }
  }

  lemma CountAppend(jobs: seq<Job>, job: Job, id: string, t: Tally)
    ensures Count(jobs + [job], id, t) == Count(jobs, id, t) + (if Counts(job, id, t) then 1 else 0)
  {
    assert (jobs + [job])[..|jobs|] == jobs;
  }

  lemma {:induction false} CountPositive(jobs: seq<Job>, j: nat, id: string, t: Tally)
    requires j < |jobs| && Counts(jobs[j], id, t)
    ensures Count(jobs, id, t) > 0
  {
    var n := |jobs| - 1;
    if j < n {
      CountPositive(jobs[..n], j, id, t);
    }
  }

  // ----- the conservation bound -----

  ghost predicate Bounded(s: State, id: string) {
    var total := Live(s, id) + (if Free(s, id) then 1 else 0);
    total <= 1 + Expiries(s, id) && (Expiries(s, id) == 0 ==> total == 1)
  }

  ghost predicate AllBounded(s: State) {
    && (forall job <- s.jobs :: job.phase == Taken ==> job.timer == Unarmed)
    && (forall id :: Bounded(s, id))
  }

  lemma TakeCounts(s: State, taken: string, id: string)
    requires taken in s.flags && Free(s, taken)
    ensures
      var s' := Next(s, Take(taken)).value;
      && Live(s', id) == Live(s, id) + (if taken == id then 1 else 0)
      && Expiries(s', id) == Expiries(s, id)
  {
    CountAppend(s.jobs, Job(taken, Taken, Unarmed), id, IsLive);
    CountAppend(s.jobs, Job(taken, Taken, Unarmed), id, HasExpired);
  }

  lemma JobStepCounts(s: State, step: Step, id: string)
    requires !step.Lookup? && !step.Take? && Next(s, step).Some?
    requires s.jobs[step.j].phase == Taken ==> s.jobs[step.j].timer == Unarmed
    ensures
      var s', own := Next(s, step).value, s.jobs[step.j].id == id;
      && Live(s', id) == Live(s, id) - (if own && step.Release? then 1 else 0)
      && Expiries(s', id) == Expiries(s, id) + (if own && step.Expire? then 1 else 0)
      && (own && step.Release? ==> Live(s, id) > 0)
  {
    var job' := Next(s, step).value.jobs[step.j];
    CountUpdate(s.jobs, step.j, job', id, IsLive);
    CountUpdate(s.jobs, step.j, job', id, HasExpired);
  }

  lemma StepBounded(s: State, step: Step, id: string)
    requires Bounded(s, id) && Next(s, step).Some?
    requires forall job <- s.jobs :: job.phase == Taken ==> job.timer == Unarmed
    ensures Bounded(Next(s, step).value, id)
  {
    match step
    case Lookup(_) =>
    case Take(taken) =>
      if Free(s, taken) {
        TakeCounts(s, taken, id);
      }
    case _ =>
      JobStepCounts(s, step, id);
  }

  /** In every reachable state, for every id: live requests plus one for a free
      flag is at most one plus the timer cleanups, and exactly one before the
      first of them. */
  lemma ExclusionBound(steps: seq<Step>, id: string)
    requires Run(Next, INITIAL, steps).Some?
    ensures
      var s := Run(Next, INITIAL, steps).value;
      var total := Live(s, id) + if Free(s, id) then 1 else 0;
      total <= 1 + Expiries(s, id) && (Expiries(s, id) == 0 ==> total == 1)
  {
    forall s: State, step: Step | AllBounded(s) && Next(s, step).Some?
      ensures AllBounded(Next(s, step).value)
    {
      forall i {
        StepBounded(s, step, i);
      }
    }
    RunKeeps(Next, AllBounded, INITIAL, steps);
    assert Bounded(Run(Next, INITIAL, steps).value, id);
  }

  // ----- the bound is reached -----

  function Overtaken(id: string, n: nat): State {
    State(map[id := false], seq(n, _ => Job(id, Running, Expired)))
  }

  /** One more request is taken, armed and expired. */
  lemma ReachNextOvertaken(id: string, n: nat)
    ensures Reaches(Next, Overtaken(id, n), Overtaken(id, n + 1))
  {
    var s := Overtaken(id, n);
    var s1 := Next(s, Take(id)).value;
    var s2 := Next(s1, Arm(n)).value;
    var s3 := Next(s2, Fire(n)).value;
    var s4 := Next(s3, Expire(n)).value;
    assert s4 == Overtaken(id, n + 1);
    Reaches1(Next, s, Take(id));
    Reaches1(Next, s1, Arm(n));
    Reaches1(Next, s2, Fire(n));
    Reaches1(Next, s3, Expire(n));
    ReachesThen(Next, s, s1, s2);
    ReachesThen(Next, s, s2, s3);
    ReachesThen(Next, s, s3, s4);
  }

  lemma {:induction false} ReachOvertaken(id: string, n: nat)
    ensures Reaches(Next, INITIAL, Overtaken(id, n))
  {
    if n == 0 {
      assert Overtaken(id, 0) == Next(INITIAL, Lookup(id)).value;
      Reaches1(Next, INITIAL, Lookup(id));
    } else {
      ReachOvertaken(id, n - 1);
      ReachNextOvertaken(id, n - 1);
      ReachesThen(Next, INITIAL, Overtaken(id, n - 1), Overtaken(id, n));
    }
  }

  lemma {:induction false} CountOvertaken(id: string, n: nat)
    ensures Live(Overtaken(id, n), id) == n == Expiries(Overtaken(id, n), id)
  {
    if n > 0 {
      CountOvertaken(id, n - 1);
      assert Overtaken(id, n).jobs[..n - 1] == Overtaken(id, n - 1).jobs;
    }
  }

  /** The bound cannot be improved: `n` expiries let `n + 1` requests of the same
      id run at once, so with `n == 1` mutual exclusion is lost. */
  lemma BoundReached(id: string, n: nat) returns (s: State)
    ensures Reaches(Next, INITIAL, s)
    ensures Live(s, id) == n + 1 && Expiries(s, id) == n
  {
    var s0 := Overtaken(id, n);
    s := Next(s0, Take(id)).value;
    ReachOvertaken(id, n);
    Reaches1(Next, s0, Take(id));
    ReachesThen(Next, INITIAL, s0, s);
    CountOvertaken(id, n);
    TakeCounts(s0, id, id);
  }

  // ----- no stuck lock -----

  /** `j` is the request that last took the flag of `id`. */
  predicate IsLastTaker(s: State, id: string, j: nat) {
    && j < |s.jobs| && s.jobs[j].id == id
    && forall k :: j < k < |s.jobs| ==> s.jobs[k].id != id
  }

  ghost predicate HeldByLastTaker(s: State) {
    forall id :: !Free(s, id) ==> exists j: nat :: IsLastTaker(s, id, j) && s.jobs[j].phase != Finished
  }

  lemma StepKeepsHolder(s: State, step: Step)
    requires HeldByLastTaker(s) && Next(s, step).Some?
    ensures HeldByLastTaker(Next(s, step).value)
  {
    var s' := Next(s, step).value;
    forall id | !Free(s', id)
      ensures exists j: nat :: IsLastTaker(s', id, j) && s'.jobs[j].phase != Finished
    {
      if Free(s, id) {
        assert IsLastTaker(s', id, |s.jobs|);
      } else {
        var j: nat :| IsLastTaker(s, id, j) && s.jobs[j].phase != Finished;
        assert IsLastTaker(s', id, j);
      }
    }
  }

  /** A set flag means that the request which last took it is still at work,
      whatever expiries and stale releases happened before. */
  lemma NoStuckLock(steps: seq<Step>, id: string)
    requires Run(Next, INITIAL, steps).Some?
    ensures
      var s := Run(Next, INITIAL, steps).value;
      !Free(s, id) ==> exists j: nat :: IsLastTaker(s, id, j) && s.jobs[j].phase != Finished
  {
    forall s: State, step: Step | HeldByLastTaker(s) && Next(s, step).Some?
      ensures HeldByLastTaker(Next(s, step).value)
    {
      StepKeepsHolder(s, step);
    }
    RunKeeps(Next, HeldByLastTaker, INITIAL, steps);
    assert HeldByLastTaker(Run(Next, INITIAL, steps).value);
  }

  /** Once every request of `id` has finished, the next one is accepted. */
  lemma NextRequestAccepted(steps: seq<Step>, id: string)
    requires Run(Next, INITIAL, steps).Some?
    requires Live(Run(Next, INITIAL, steps).value, id) == 0
    ensures
      var s := Run(Next, INITIAL, steps).value;
      var s' := Run(Next, s, [Lookup(id), Take(id)]);
      s'.Some? && |s'.value.jobs| == |s.jobs| + 1 && s'.value.jobs[|s.jobs|] == Job(id, Taken, Unarmed)
  {
    var s := Run(Next, INITIAL, steps).value;
    NoStuckLock(steps, id);
    if !Free(s, id) {
      var j: nat :| IsLastTaker(s, id, j) && s.jobs[j].phase != Finished;
      CountPositive(s.jobs, j, id, IsLive);
    }
    var s1 := Next(s, Lookup(id)).value;
    assert [Lookup(id), Take(id)][1..] == [Take(id)];
    assert Run(Next, s1, [Take(id)]) == Run(Next, Next(s1, Take(id)).value, []);
  }

  // ----- every request can finish -----

  function StepsLeft(phase: Phase): nat {
    match phase
    case Taken => 4
    case Running => 3
    case Returned => 2
    case TimerStopped => 1
    case Finished => 0
  }

  /** The next step of the goroutine of request `j`. */
  function OwnStep(j: nat, phase: Phase): Step
    requires phase != Finished
  {
    match phase
    case Taken => Arm(j)
    case Running => Return(j)
    case Returned => StopTimer(j)
    case TimerStopped => Release(j)
  }

  /** The goroutine of a request can always do its next step, which leaves the other
      requests alone; the last one frees the flag. */
  lemma OwnStepRuns(s: State, j: nat)
    requires j < |s.jobs| && s.jobs[j].phase != Finished
    ensures
      var s' := Next(s, OwnStep(j, s.jobs[j].phase));
      && s'.Some? && |s'.value.jobs| == |s.jobs| && s'.value.jobs == s.jobs[j := s'.value.jobs[j]]
      && s'.value.jobs[j].id == s.jobs[j].id
      && StepsLeft(s'.value.jobs[j].phase) == StepsLeft(s.jobs[j].phase) - 1
      && (s'.value.jobs[j].phase == Finished ==> Free(s'.value, s.jobs[j].id))
  {
  }

  lemma {:induction false} FinishJob(s: State, j: nat) returns (steps: seq<Step>, s': State)
    requires j < |s.jobs|
    ensures Run(Next, s, steps) == Some(s') && |steps| == StepsLeft(s.jobs[j].phase)
    ensures |s'.jobs| == |s.jobs| && s'.jobs[j].phase == Finished && s'.jobs[j].id == s.jobs[j].id
    ensures forall k :: 0 <= k < |s.jobs| && k != j ==> s'.jobs[k] == s.jobs[k]
    decreases StepsLeft(s.jobs[j].phase)
  {
    if s.jobs[j].phase == Finished {
      steps, s' := [], s;
    } else {
      OwnStepRuns(s, j);
      var step := OwnStep(j, s.jobs[j].phase);
      steps, s' := FinishJob(Next(s, step).value, j);
      RunStep(Next, s, step, steps);
      steps := [step] + steps;
    }
  }

  /** The requests that have not done their deferred cleanup, of any id. */
  function Unfinished(jobs: seq<Job>): nat {
    if jobs == [] then 0
    else Unfinished(jobs[..|jobs| - 1]) + (if jobs[|jobs| - 1].phase == Finished then 0 else 1)
  }

  lemma {:induction false} FinishFirst(s: State, m: nat) returns (steps: seq<Step>, s': State)
    requires m <= |s.jobs|
    ensures Run(Next, s, steps) == Some(s') && |steps| <= 4 * Unfinished(s.jobs[..m])
    ensures |s'.jobs| == |s.jobs|
    ensures forall k :: 0 <= k < |s.jobs| ==>
      s'.jobs[k].id == s.jobs[k].id && if k < m then s'.jobs[k].phase == Finished else s'.jobs[k] == s.jobs[k]
    decreases m
  {
    if m == 0 {
      steps, s' := [], s;
    } else {
      var first, last;
      var s1;
      first, s1 := FinishFirst(s, m - 1);
      last, s' := FinishJob(s1, m - 1);
      RunAppend(Next, s, first, last);
      steps := first + last;
      assert s.jobs[..m][..m - 1] == s.jobs[..m - 1];
    }
  }

  lemma {:induction false} NoneLive(jobs: seq<Job>, id: string)
    requires forall job <- jobs :: job.phase == Finished
    ensures Count(jobs, id, IsLive) == 0
  {
    if jobs != [] {
      NoneLive(jobs[..|jobs| - 1], id);
    }
  }

  /** From every reachable state all requests can finish, within four steps for each
      of them. Then every flag is free and the next request of any id is accepted. */
  lemma EveryRequestCanFinish(steps: seq<Step>) returns (more: seq<Step>)
    requires Run(Next, INITIAL, steps).Some?
    ensures
      var s := Run(Next, INITIAL, steps).value;
      && |more| <= 4 * Unfinished(s.jobs) && Run(Next, INITIAL, steps + more).Some?
      && var s' := Run(Next, INITIAL, steps + more).value;
         && |s'.jobs| == |s.jobs| && (forall job <- s'.jobs :: job.phase == Finished)
         && (forall k :: 0 <= k < |s.jobs| ==> s'.jobs[k].id == s.jobs[k].id)
         && forall id :: Live(s', id) == 0 && Free(s', id)
  {
    var s := Run(Next, INITIAL, steps).value;
    var s';
    more, s' := FinishFirst(s, |s.jobs|);
    assert s.jobs[..|s.jobs|] == s.jobs;
    RunAppend(Next, INITIAL, steps, more);
    forall id
      ensures Live(s', id) == 0 && Free(s', id)
    {
      NoneLive(s'.jobs, id);
      NoStuckLock(steps + more, id);
    }
  }

  // ----- the shared table -----

  class CheckState {
    var value: bool

    constructor ()
      ensures !value
    {
      value := false;
    }

    method SetInProgressState(state: bool)
      modifies this
      ensures value == state
    {
      value := state;
    }

    method Take() returns (success: bool)
      modifies this
      ensures success == !old(value) && value
    {
      if value {
        return false;
      }
      value := true;
      return true;
    }
  }

  class CheckStates {
    var checkStates: map<string, CheckState>

    ghost predicate Valid()
      reads this
    {
      forall x, y :: x in checkStates && y in checkStates && checkStates[x] == checkStates[y] ==> x == y
    }

    ghost function Flags(): map<string, bool>
      reads this, checkStates.Values
    {
      map id | id in checkStates :: checkStates[id].value
    }

    constructor ()
      ensures Valid() && Flags() == INITIAL.flags
    {
      checkStates := map[];
    }

    /** The part of `doOnce` that runs before its goroutine: it changes the flags
        as the steps Lookup and Take do, and is blocked exactly when Take adds no
        request. */
    method Request(id: string, ghost jobs: seq<Job>) returns (blocked: bool)
      requires Valid()
      modifies this, checkStates.Values
      ensures Valid() && fresh(checkStates.Values - old(checkStates.Values))
      ensures
        var s := State(old(Flags()), jobs);
        var s' := Next(Next(s, Lookup(id)).value, Take(id));
        && s' == Some(State(Flags(), if blocked then jobs else jobs + [Job(id, Taken, Unarmed)]))
        && blocked == !Free(s, id)
    {
      var s: CheckState;
      if id in checkStates {
        s := checkStates[id];
      } else {
        s := new CheckState();
        checkStates := checkStates[id := s];
      }
      ghost var before := Flags();
      assert before == Next(State(old(Flags()), jobs), Lookup(id)).value.flags;
      assert before[id] == s.value;
      var taken := s.Take();
      assert Flags() == before[id := true];
      assert !taken ==> before == before[id := true];
      return !taken;
    }

    /** The cleanup closure of an accepted request, run by its deferred function
        and by its timer: it frees the flag of its own id and no other. */
    method CleanUp(id: string)
      requires Valid() && id in checkStates
      modifies checkStates[id]
      ensures Flags() == old(Flags())[id := false]
    {
      checkStates[id].SetInProgressState(false);
    }
  }
}
