/** The checks of monitor/checks.go. Whether the process runs is an arbitrary
    function of time. The goroutines `go c.start()` and `go c.stop()` are listed in
    the result `spawned`, as steps of module Retry; what they do later is RunStart
    and RunStop. */
module Checks {
  import opened Machines
  import opened Waiting
  import Retry

  const CHECK_MAX_START_TRIES := 5
  const CHECK_TIMEOUT := 120 * 1000

  datatype Operation = Perform | Start | Stop | Restart

  /** The time of the last poll that a wait can make. */
  function LastPoll(timeout: int): (last: nat)
    ensures last % 500 == 0 && last <= NotNegative(timeout) < last + 500
  {
    NotNegative(timeout) / POLL_INTERVAL * POLL_INTERVAL
  }

  /** The longest time an operation takes for the given program timeouts. A
      restart starts only after a stop that succeeded, at one of its polls. */
  function Longest(op: Operation, startTimeout: int, stopTimeout: int): nat {
    match op
    case Perform => NotNegative(startTimeout)
    case Start => NotNegative(startTimeout)
    case Stop => NotNegative(stopTimeout)
    case Restart =>
      var both := LastPoll(stopTimeout) + NotNegative(startTimeout);
      if both < NotNegative(stopTimeout) then NotNegative(stopTimeout) else both
  }

  function IsNotRunning(running: nat -> bool): nat -> bool {
    (t: nat) => !running(t)
  }

  /** The operation, begun at `now` on a process that runs as `running` says,
      waits until `end`, for some choices at simultaneous timers. */
  ghost predicate EndsAt(op: Operation, running: nat -> bool, now: nat, startTimeout: int, stopTimeout: int, end: nat) {
    match op
    case Perform => exists tie, ok :: WaitEnds(running, now, startTimeout, POLL_INTERVAL, tie, ok, end)
    case Start => exists tie, ok :: WaitEnds(running, now, startTimeout, POLL_INTERVAL, tie, ok, end)
    case Stop => exists tie, ok :: WaitEnds(IsNotRunning(running), now, stopTimeout, POLL_INTERVAL, tie, ok, end)
    case Restart =>
      || (exists tie :: WaitEnds(IsNotRunning(running), now, stopTimeout, POLL_INTERVAL, tie, false, end))
      || exists stopTie, startTie, ok, down ::
           && WaitEnds(IsNotRunning(running), now, stopTimeout, POLL_INTERVAL, stopTie, true, down)
           && WaitEnds(running, down, startTimeout, POLL_INTERVAL, startTie, ok, end)
  }

  lemma WaitBound(cb: nat -> bool, start: nat, timeout: int, tie: bool, ok: bool, end: nat)
    requires WaitEnds(cb, start, timeout, POLL_INTERVAL, tie, ok, end)
    ensures start <= end <= start + NotNegative(timeout)
    ensures ok ==> end <= start + LastPoll(timeout)
  {
    var polls: nat :| Waited(cb, start, timeout, POLL_INTERVAL, tie, ok, end, polls);
    WaitIsBounded(cb, start, timeout, POLL_INTERVAL, tie, ok, end, polls);
  }

  lemma NoLongerThanLongest(op: Operation, running: nat -> bool, now: nat,
                            startTimeout: int, stopTimeout: int, end: nat)
    requires EndsAt(op, running, now, startTimeout, stopTimeout, end)
    ensures now <= end <= now + Longest(op, startTimeout, stopTimeout)
  {
    match op
    case Perform =>
      var tie, ok :| WaitEnds(running, now, startTimeout, POLL_INTERVAL, tie, ok, end);
      WaitBound(running, now, startTimeout, tie, ok, end);
    case Start =>
      var tie, ok :| WaitEnds(running, now, startTimeout, POLL_INTERVAL, tie, ok, end);
      WaitBound(running, now, startTimeout, tie, ok, end);
    case Stop =>
      var tie, ok :| WaitEnds(IsNotRunning(running), now, stopTimeout, POLL_INTERVAL, tie, ok, end);
      WaitBound(IsNotRunning(running), now, stopTimeout, tie, ok, end);
    case Restart =>
      if tie :| WaitEnds(IsNotRunning(running), now, stopTimeout, POLL_INTERVAL, tie, false, end) {
        WaitBound(IsNotRunning(running), now, stopTimeout, tie, false, end);
      } else {
        var stopTie, startTie, ok, down :|
          && WaitEnds(IsNotRunning(running), now, stopTimeout, POLL_INTERVAL, stopTie, true, down)
          && WaitEnds(running, down, startTimeout, POLL_INTERVAL, startTie, ok, end);
        WaitBound(IsNotRunning(running), now, stopTimeout, stopTie, true, down);
        WaitBound(running, down, startTimeout, startTie, ok, end);
      }
  }

  lemma WaitInVain(cb: nat -> bool, start: nat, timeout: int)
    requires forall t: nat :: start <= t ==> !cb(t)
    ensures WaitEnds(cb, start, timeout, POLL_INTERVAL, true, false, start + NotNegative(timeout))
  {
    var polls := NotNegative(timeout) / POLL_INTERVAL + 1;
    assert Waited(cb, start, timeout, POLL_INTERVAL, true, false, start + NotNegative(timeout), polls);
  }

  lemma SuccessAtLastPoll(cb: nat -> bool, timeout: int)
    requires forall t: nat :: cb(t) == (t >= LastPoll(timeout))
    ensures WaitEnds(cb, 0, timeout, POLL_INTERVAL, true, true, LastPoll(timeout))
  {
    var polls := NotNegative(timeout) / POLL_INTERVAL + 1;
    assert Waited(cb, 0, timeout, POLL_INTERVAL, true, true, LastPoll(timeout), polls);
  }

  /** No bound below `Longest` holds: some process makes the operation last that long. */
  lemma LongestIsReached(op: Operation, startTimeout: int, stopTimeout: int) returns (running: nat -> bool)
    ensures EndsAt(op, running, 0, startTimeout, stopTimeout, Longest(op, startTimeout, stopTimeout))
  {
    match op
    case Perform =>
      running := (t: nat) => false;
      WaitInVain(running, 0, startTimeout);
    case Start =>
      running := (t: nat) => false;
      WaitInVain(running, 0, startTimeout);
    case Stop =>
      running := (t: nat) => true;
      WaitInVain(IsNotRunning(running), 0, stopTimeout);
    case Restart =>
      var down := LastPoll(stopTimeout);
      if down + NotNegative(startTimeout) < NotNegative(stopTimeout) {
        running := (t: nat) => true;
        WaitInVain(IsNotRunning(running), 0, stopTimeout);
      } else {
        running := (t: nat) => t < down;
        SuccessAtLastPoll(IsNotRunning(running), stopTimeout);
        WaitInVain(running, down, startTimeout);
      }
  }

  class Check {
    const id: string
    const isProcess: bool
    const timeout: int := CHECK_TIMEOUT

    /** None until Initialize; reading it earlier panics in the source. */
    var monitored: Option<bool>
    /** Timeouts of the start and stop programs; 0 when not configured. */
    var startTimeout: int
    var stopTimeout: int
    var maxStartTries: nat
    var startTries: nat
    var startedAt: Option<nat>

    constructor (id: string, isProcess: bool, startTimeout: int, stopTimeout: int)
      ensures this.id == id && this.isProcess == isProcess && monitored == None
      ensures this.startTimeout == startTimeout && this.stopTimeout == stopTimeout
      ensures maxStartTries == startTries == 0 && startedAt == None
    {
      this.id, this.isProcess := id, isProcess;
      this.startTimeout, this.stopTimeout := startTimeout, stopTimeout;
      monitored, startedAt := None, None;
      maxStartTries, startTries := 0, 0;
    }

    function MaxTries(): (tries: nat)
      reads this
      ensures tries >= 1 && tries == if maxStartTries == 0 then 5 else maxStartTries
    {
      if maxStartTries == 0 then CHECK_MAX_START_TRIES else maxStartTries
    }

    method SetMonitored(value: bool)
      modifies this`monitored
      ensures monitored == Some(value)
    {
      monitored := Some(value);
    }

    /** Defines the flag, and gives unset program timeouts the check's own. */
    method Initialize(running: bool, now: nat)
      modifies this
      ensures monitored == Some(true)
      ensures startTimeout == if isProcess && old(startTimeout) == 0 then 120000 else old(startTimeout)
      ensures stopTimeout == if isProcess && old(stopTimeout) == 0 then 120000 else old(stopTimeout)
      ensures startedAt == if isProcess && running then Some(now) else old(startedAt)
      ensures startTries == old(startTries) && maxStartTries == old(maxStartTries)
    {
      SetMonitored(true);
      if isProcess {
        if startTimeout == 0 {
          startTimeout := timeout;
        }
        if stopTimeout == 0 {
          stopTimeout := timeout;
        }
        if running {
          startedAt := Some(now);
        }
      }
    }

    /** Whether `s` is this check in the retry machine, between two Performs. */
    ghost predicate IsIdleAs(s: Retry.State)
      reads this
    {
      && s.phase == Retry.Idle && s.max == MaxTries()
      && Some(s.monitored) == monitored && s.tries == startTries
    }

    /** One undisturbed Perform. It acts exactly when the check is monitored and
        was seen not running; then it spawns the start goroutine, waits, and
        takes the check where the steps of the retry machine take it. */
    method Perform(seenRunning: bool, running: nat -> bool, now: nat, tie: bool, ghost s: Retry.State)
      returns (acted: bool, end: nat, spawned: seq<Retry.Step>)
      requires isProcess && IsIdleAs(s)
      modifies this`monitored, this`startTries, this`startedAt
      ensures acted == (s.monitored && !seenRunning)
      ensures spawned == if acted then [Retry.RequestStart] else []
      ensures !acted ==> end == now && IsIdleAs(s) && startedAt == old(startedAt)
      ensures acted ==> exists ok: bool, polls: nat ::
        && Waited(running, now, startTimeout, POLL_INTERVAL, tie, ok, end, polls)
        && IsIdleAs(Retry.AfterPerform(s, ok))
        && Reaches(Retry.Next, s, Retry.AfterPerform(s, ok))
        && startedAt == if ok then Some(end) else old(startedAt)
      ensures acted ==> EndsAt(Operation.Perform, running, now, startTimeout, stopTimeout, end)
    {
      end := now;
      spawned := [];
      acted := monitored.value && !seenRunning;
      if acted {
        spawned := [Retry.RequestStart];
        var tick, deadline := now + POLL_INTERVAL, now + NotNegative(startTimeout);
        ghost var polls := 1;
        var timedOut := false;
        while !timedOut && !running(end)
          invariant polls > 0 && IsPolled(polls - 1, startTimeout, POLL_INTERVAL, tie)
          invariant forall k: nat :: k < polls - 1 ==> !running(PollTime(now, k, POLL_INTERVAL))
          invariant now <= end <= deadline
          invariant !timedOut ==> end == PollTime(now, polls - 1, POLL_INTERVAL) && tick == end + POLL_INTERVAL
          invariant timedOut ==> Waited(running, now, startTimeout, POLL_INTERVAL, tie, false, end, polls)
          invariant monitored == old(monitored) && startedAt == old(startedAt)
          invariant startTries == if timedOut then s.tries + 1 else s.tries
          decreases !timedOut, deadline - end
        {
          if tick < deadline || (tick == deadline && tie) {
            end := tick;
            tick := end + POLL_INTERVAL;
            polls := polls + 1;
          } else {
            end := deadline;
            startTries := startTries + 1;
            timedOut := true;
          }
        }
        if !timedOut {
          startTries := 0;
          startedAt := Some(end);
        }
        if startTries >= MaxTries() {
          SetMonitored(false);
          startTries := 0;
        }
        Retry.PerformRun(s, !timedOut);
        assert Waited(running, now, startTimeout, POLL_INTERVAL, tie, !timedOut, end, polls);
        assert WaitEnds(running, now, startTimeout, POLL_INTERVAL, tie, !timedOut, end);
      }
    }

    /** The body of the start goroutine: it monitors the check and runs the start
        program unless the process is already up. */
    method RunStart(running: bool, finished: nat, ghost s: Retry.State) returns (executed: bool)
      requires monitored == Some(s.monitored) && s.starts > 0
      modifies this`monitored, this`startedAt
      ensures executed == !running
      ensures monitored == Some(true) == Some(Retry.Next(s, Retry.RunStart).value.monitored)
      ensures startedAt == if executed then Some(finished) else old(startedAt)
    {
      SetMonitored(true);
      if running {
        return false;
      }
      startedAt := Some(finished);
      return true;
    }

    method RunStop(running: bool, ghost s: Retry.State) returns (executed: bool)
      requires monitored == Some(s.monitored) && s.stops > 0
      modifies this`monitored
      ensures executed == running
      ensures monitored == Some(false) == Some(Retry.Next(s, Retry.RunStop).value.monitored)
    {
      SetMonitored(false);
      return running;
    }

    /** Spawns the start goroutine and waits until the process is running. */
    method Start(running: nat -> bool, now: nat, tie: bool) returns (ok: bool, end: nat, spawned: seq<Retry.Step>)
      ensures spawned == [Retry.RequestStart]
      ensures WaitEnds(running, now, startTimeout, POLL_INTERVAL, tie, ok, end)
      ensures EndsAt(Operation.Start, running, now, startTimeout, stopTimeout, end)
    {
      ok, end := WaitUntil(running, now, startTimeout, POLL_INTERVAL, tie);
      spawned := [Retry.RequestStart];
    }

    /** Spawns the stop goroutine and waits until the process is not running. */
    method Stop(running: nat -> bool, now: nat, tie: bool) returns (ok: bool, end: nat, spawned: seq<Retry.Step>)
      ensures spawned == [Retry.RequestStop]
      ensures WaitEnds(IsNotRunning(running), now, stopTimeout, POLL_INTERVAL, tie, ok, end)
      ensures EndsAt(Operation.Stop, running, now, startTimeout, stopTimeout, end)
    {
      ok, end := WaitUntil(IsNotRunning(running), now, stopTimeout, POLL_INTERVAL, tie);
      spawned := [Retry.RequestStop];
    }

    /** Stops and, only when that worked, starts: on success the process was seen
        down at one instant and up at the same or a later one. Each of the two waits
        has its own choice at simultaneous timers. */
    method Restart(running: nat -> bool, now: nat, stopTie: bool, startTie: bool)
      returns (ok: bool, end: nat, spawned: seq<Retry.Step>, ghost down: nat)
      ensures spawned == [Retry.RequestStop] || spawned == [Retry.RequestStop, Retry.RequestStart]
      ensures |spawned| == 1 ==>
        !ok && WaitEnds(IsNotRunning(running), now, stopTimeout, POLL_INTERVAL, stopTie, false, end)
      ensures |spawned| == 2 ==>
        && WaitEnds(IsNotRunning(running), now, stopTimeout, POLL_INTERVAL, stopTie, true, down)
        && WaitEnds(running, down, startTimeout, POLL_INTERVAL, startTie, ok, end)
      ensures ok ==> now <= down <= end && !running(down) && running(end)
      ensures EndsAt(Operation.Restart, running, now, startTimeout, stopTimeout, end)
    {
      ok, end, spawned := Stop(running, now, stopTie);
      down := end;
      if ok {
        WaitBound(IsNotRunning(running), now, stopTimeout, stopTie, true, down);
        var started;
        ok, end, started := Start(running, end, startTie);
        spawned := spawned + started;
        WaitBound(running, down, startTimeout, startTie, ok, end);
      }
    }
  }
}
