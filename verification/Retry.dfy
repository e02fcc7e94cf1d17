/** The retry machine of one process check (monitor/checks.go): the monitored
    flag, the try counter and the goroutines that change them. Performs do not
    overlap (module TimedDoOnce says when that is so); every command and every
    goroutine step may fall between any two steps of a Perform. */
module Retry {
  import opened Machines
  import opened Products

  datatype Phase = Idle | Waiting | Deciding | Unmonitoring

  /** What has happened so far: timed-out and successful Performs, automatic
      unmonitorings, and changes of the flag from unmonitored to monitored. */
  datatype Totals = Totals(timeouts: nat, successes: nat, unmonitors: nat, flips: nat)

  /** `max` is the effective maxTries; `starts` and `stops` count the goroutines
      `go c.start()` and `go c.stop()` that have not set the flag yet. */
  datatype State = State(max: nat, monitored: bool, tries: nat, phase: Phase, starts: nat, stops: nat, totals: Totals)

  datatype Step =
    | Begin | Started | TimedOut | Decide | Reset  // the steps of a Perform
    | RequestStart | RequestStop                   // Start and Stop spawn their goroutine
    | RunStart | RunStop                           // a goroutine sets the flag
    | SetMonitored(value: bool)                    // monitor and unmonitor commands

  function Fresh(max: nat, monitored: bool): State {
    State(max, monitored, 0, Idle, 0, 0, Totals(0, 0, 0, 0))
  }

  function WithFlag(s: State, value: bool): State {
    s.(monitored := value,
       totals := s.totals.(flips := s.totals.flips + if value && !s.monitored then 1 else 0))
  }

  function Next(s: State, step: Step): Option<State> {
    match step
    case Begin =>
      if s.phase == Idle && s.monitored then Some(s.(phase := Waiting, starts := s.starts + 1)) else None
    case Started =>
      if s.phase != Waiting then None
      else Some(s.(phase := Deciding, tries := 0, totals := s.totals.(successes := s.totals.successes + 1)))
    case TimedOut =>
      if s.phase != Waiting then None
      else Some(s.(phase := Deciding, tries := s.tries + 1, totals := s.totals.(timeouts := s.totals.timeouts + 1)))
    case Decide =>
      if s.phase != Deciding then None
      else if s.tries >= s.max then Some(WithFlag(s, false).(phase := Unmonitoring))
      else Some(s.(phase := Idle))
    case Reset =>
      if s.phase != Unmonitoring then None
      else Some(s.(phase := Idle, tries := 0, totals := s.totals.(unmonitors := s.totals.unmonitors + 1)))
    case RequestStart => Some(s.(starts := s.starts + 1))
    case RequestStop => Some(s.(stops := s.stops + 1))
    case RunStart => if s.starts == 0 then None else Some(WithFlag(s, true).(starts := s.starts - 1))
    case RunStop => if s.stops == 0 then None else Some(WithFlag(s, false).(stops := s.stops - 1))
    case SetMonitored(value) => Some(WithFlag(s, value))
  }

  // ----- the budget of failed starts -----

  /** An automatic unmonitoring is paid for by the flip that made its Perform
      possible; the first one is free. */
  predicate Paid(s: State) {
    var t := s.totals;
    match s.phase
    case Idle => t.unmonitors <= t.flips + (if s.monitored then 0 else 1) && (t.unmonitors > t.flips ==> s.tries == 0)
    case Unmonitoring => t.unmonitors + 1 <= t.flips + (if s.monitored then 0 else 1)
    case _ => t.unmonitors <= t.flips
  }

  predicate Invariant(s: State) {
    && s.max >= 1
    && (s.tries < s.max || (s.tries == s.max && (s.phase == Deciding || s.phase == Unmonitoring)))
    && (s.phase == Unmonitoring ==> s.tries == s.max)
    && s.totals.timeouts <= s.max * s.totals.unmonitors + (s.max - 1) * s.totals.successes + s.tries
    && Paid(s)
  }

  lemma StepKeepsInvariant(s: State, step: Step)
    requires Invariant(s) && Next(s, step).Some?
    ensures Invariant(Next(s, step).value)
  {
    Product(s.max, s.totals.unmonitors);
    Product(s.max - 1, s.totals.successes);
  }

  lemma InvariantAlways(max: nat, monitored: bool, steps: seq<Step>)
    requires max >= 1 && Run(Next, Fresh(max, monitored), steps).Some?
    ensures Invariant(Run(Next, Fresh(max, monitored), steps).value)
    ensures Run(Next, Fresh(max, monitored), steps).value.max == max
  {
    var inv := (s: State) => s.max == max && Invariant(s);
    forall s: State, step: Step | inv(s) && Next(s, step).Some?
      ensures inv(Next(s, step).value)
    {
      StepKeepsInvariant(s, step);
    }
    RunKeeps(Next, inv, Fresh(max, monitored), steps);
  }

  /** Between Performs the counter is below maxTries, whatever interleaves. */
  lemma TriesBelowMax(max: nat, monitored: bool, steps: seq<Step>)
    requires max >= 1 && Run(Next, Fresh(max, monitored), steps).Some?
    ensures
      var s := Run(Next, Fresh(max, monitored), steps).value;
      s.phase == Idle ==> s.tries < max
  {
    InvariantAlways(max, monitored, steps);
  }

  /** Over a whole run the failed starts are bounded by the flips of the flag and
      the successful starts. */
  lemma BoundedRetries(max: nat, monitored: bool, steps: seq<Step>)
    requires max >= 1 && Run(Next, Fresh(max, monitored), steps).Some?
    ensures
      var t := Run(Next, Fresh(max, monitored), steps).value.totals;
      && t.timeouts <= max * (1 + t.flips) + (max - 1) * t.successes
      && t.timeouts <= max * (1 + t.flips + t.successes)
  {
    InvariantAlways(max, monitored, steps);
    var s := Run(Next, Fresh(max, monitored), steps).value;
    var t := s.totals;
    Product(max, t.flips);
    if t.unmonitors <= t.flips {
      ProductOrder(max, t.unmonitors, t.flips);
    } else {
      assert t.unmonitors == t.flips + 1 && s.tries == 0;
    }
    assert max * (1 + t.flips + t.successes) == max * (1 + t.flips) + max * t.successes;
    assert (max - 1) * t.successes <= max * t.successes;
  }

  // ----- one undisturbed Perform -----

  /** What a Perform does to a check that it finds monitored and not running. */
  function AfterPerform(s: State, ok: bool): State {
    var t := s.totals;
    if ok then
      s.(tries := 0, starts := s.starts + 1, totals := t.(successes := t.successes + 1))
    else if s.tries + 1 < s.max then
      s.(tries := s.tries + 1, starts := s.starts + 1, totals := t.(timeouts := t.timeouts + 1))
    else
      s.(monitored := false, tries := 0, starts := s.starts + 1,
         totals := t.(timeouts := t.timeouts + 1, unmonitors := t.unmonitors + 1))
  }

  /** Its steps: Begin, Started or TimedOut, Decide and, at maxTries, Reset. */
  lemma PerformRun(s: State, ok: bool)
    requires s.phase == Idle && s.monitored && s.max >= 1
    ensures Reaches(Next, s, AfterPerform(s, ok))
  {
    var ended := if ok then Started else TimedOut;
    var s1 := Next(s, Begin).value;
    var s2 := Next(s1, ended).value;
    var s3 := Next(s2, Decide).value;
    Reaches1(Next, s, Begin);
    Reaches1(Next, s1, ended);
    Reaches1(Next, s2, Decide);
    ReachesThen(Next, s, s1, s2);
    ReachesThen(Next, s, s2, s3);
    if s3.phase == Unmonitoring {
      Reaches1(Next, s3, Reset);
      ReachesThen(Next, s, s3, Next(s3, Reset).value);
    }
  }

  // ----- the budget can be spent -----

  /** `n` failed Performs in a row, each one step short of unmonitoring. */
  lemma {:induction false} ReachTimeouts(s: State, n: nat)
    requires s.phase == Idle && s.monitored && s.tries + n < s.max
    ensures Reaches(Next, s, s.(tries := s.tries + n, starts := s.starts + n,
                                totals := s.totals.(timeouts := s.totals.timeouts + n)))
  {
    if n == 0 {
      assert Run(Next, s, []) == Some(s);
    } else {
      ReachTimeouts(s, n - 1);
      var s1 := s.(tries := s.tries + n - 1, starts := s.starts + n - 1,
                   totals := s.totals.(timeouts := s.totals.timeouts + n - 1));
      PerformRun(s1, false);
      ReachesThen(Next, s, s1, AfterPerform(s1, false));
    }
  }

  function Spent(max: nat, flips: nat, successes: nat, monitored: bool): State
    requires max >= 1
  {
    var spent := flips + if monitored then 0 else 1;
    State(max, monitored, 0, Idle, max * (spent + successes), 0,
          Totals(max * spent + (max - 1) * successes, successes, spent, flips))
  }

  lemma {:induction false} ReachSuccesses(max: nat, successes: nat)
    requires max >= 1
    ensures Reaches(Next, Fresh(max, true), Spent(max, 0, successes, true))
  {
    if successes == 0 {
      assert Run(Next, Fresh(max, true), []) == Some(Spent(max, 0, 0, true));
    } else {
      ReachSuccesses(max, successes - 1);
      Product(max, successes - 1);
      Product(max - 1, successes - 1);
      var s := Spent(max, 0, successes - 1, true);
      ReachTimeouts(s, max - 1);
      var s1 := s.(tries := max - 1, starts := s.starts + max - 1,
                   totals := s.totals.(timeouts := s.totals.timeouts + max - 1));
      ReachesThen(Next, Fresh(max, true), s, s1);
      PerformRun(s1, true);
      ReachesThen(Next, Fresh(max, true), s1, Spent(max, 0, successes, true));
    }
  }

  lemma SpendOneRound(max: nat, flips: nat, successes: nat)
    requires max >= 1
    ensures Reaches(Next, Spent(max, flips, successes, true), Spent(max, flips, successes, false))
  {
    var s := Spent(max, flips, successes, true);
    Product(max, flips);
    Product(max, flips + successes);
    ReachTimeouts(s, max - 1);
    var s1 := s.(tries := max - 1, starts := s.starts + max - 1,
                 totals := s.totals.(timeouts := s.totals.timeouts + max - 1));
    PerformRun(s1, false);
    ReachesThen(Next, s, s1, Spent(max, flips, successes, false));
  }

  lemma {:induction false} ReachSpent(max: nat, flips: nat, successes: nat)
    requires max >= 1
    ensures Reaches(Next, Fresh(max, true), Spent(max, flips, successes, false))
  {
    if flips == 0 {
      ReachSuccesses(max, successes);
    } else {
      ReachSpent(max, flips - 1, successes);
      var s := Spent(max, flips - 1, successes, false);
      assert Next(s, SetMonitored(true)).value == Spent(max, flips, successes, true);
      Reaches1(Next, s, SetMonitored(true));
      ReachesThen(Next, Fresh(max, true), s, Spent(max, flips, successes, true));
    }
    SpendOneRound(max, flips, successes);
    ReachesThen(Next, Fresh(max, true), Spent(max, flips, successes, true), Spent(max, flips, successes, false));
  }

  /** The bound of BoundedRetries is met with equality for every maxTries, every
      number of flips and every number of successful starts. */
  lemma RetryBudgetSpent(max: nat, flips: nat, successes: nat) returns (s: State)
    requires max >= 1
    ensures Reaches(Next, Fresh(max, true), s)
    ensures s.totals.flips == flips && s.totals.successes == successes
    ensures s.totals.timeouts == max * (1 + flips) + (max - 1) * successes
  {
    ReachSpent(max, flips, successes);
    s := Spent(max, flips, successes, false);
  }

  // ----- the flag at the end of a run -----

  /** The try counter after a run, from its steps alone. */
  function TriesAfter(steps: seq<Step>): nat {
    if steps == [] then 0
    else
      var n := |steps| - 1;
      match steps[n]
      case TimedOut => TriesAfter(steps[..n]) + 1
      case Started => 0
      case Reset => 0
      case _ => TriesAfter(steps[..n])
  }

  /** The value of the last step that sets the flag: a start sets it, a stop and the
      decision after maxTries failures clear it, and a command gives it its value. */
  function FlagAfter(max: nat, initial: bool, steps: seq<Step>): bool {
    if steps == [] then initial
    else
      var n := |steps| - 1;
      match steps[n]
      case RunStart => true
      case RunStop => false
      case SetMonitored(value) => value
      case Decide => TriesAfter(steps[..n]) < max && FlagAfter(max, initial, steps[..n])
      case _ => FlagAfter(max, initial, steps[..n])
  }

  lemma {:induction false} TriesAre(max: nat, initial: bool, steps: seq<Step>)
    requires Run(Next, Fresh(max, initial), steps).Some?
    ensures Run(Next, Fresh(max, initial), steps).value.tries == TriesAfter(steps)
    ensures Run(Next, Fresh(max, initial), steps).value.max == max
    decreases |steps|
  {
    if steps != [] {
      RunLast(Next, Fresh(max, initial), steps);
      TriesAre(max, initial, steps[..|steps| - 1]);
    }
  }

  /** After any run the flag is what the last step that sets it gave it. */
  lemma {:induction false} FlagIsLastSet(max: nat, initial: bool, steps: seq<Step>)
    requires Run(Next, Fresh(max, initial), steps).Some?
    ensures Run(Next, Fresh(max, initial), steps).value.monitored == FlagAfter(max, initial, steps)
    decreases |steps|
  {
    if steps != [] {
      var n := |steps| - 1;
      RunLast(Next, Fresh(max, initial), steps);
      FlagIsLastSet(max, initial, steps[..n]);
      TriesAre(max, initial, steps[..n]);
    }
  }

  // ----- what is counted -----

  function Occurrences(steps: seq<Step>, step: Step): nat {
    if steps == [] then 0
    else Occurrences(steps[..|steps| - 1], step) + (if steps[|steps| - 1] == step then 1 else 0)
  }

  /** How often the flag goes from unmonitored to monitored. */
  function Flips(max: nat, initial: bool, steps: seq<Step>): nat {
    if steps == [] then 0
    else
      var before := steps[..|steps| - 1];
      Flips(max, initial, before)
      + if FlagAfter(max, initial, steps) && !FlagAfter(max, initial, before) then 1 else 0
  }

  /** The totals count the steps, and a goroutine runs once for each time that it is
      spawned, by a Perform or by a command. */
  predicate Counted(s: State, max: nat, initial: bool, steps: seq<Step>) {
    && s.totals.timeouts == Occurrences(steps, TimedOut) && s.totals.successes == Occurrences(steps, Started)
    && s.totals.unmonitors == Occurrences(steps, Reset) && s.totals.flips == Flips(max, initial, steps)
    && s.starts + Occurrences(steps, RunStart) == Occurrences(steps, Begin) + Occurrences(steps, RequestStart)
    && s.stops + Occurrences(steps, RunStop) == Occurrences(steps, RequestStop)
  }

  lemma {:induction false} TotalsCountSteps(max: nat, initial: bool, steps: seq<Step>)
    requires Run(Next, Fresh(max, initial), steps).Some?
    ensures Counted(Run(Next, Fresh(max, initial), steps).value, max, initial, steps)
    decreases |steps|
  {
    if steps != [] {
      var n := |steps| - 1;
      RunLast(Next, Fresh(max, initial), steps);
      TotalsCountSteps(max, initial, steps[..n]);
      FlagIsLastSet(max, initial, steps);
      FlagIsLastSet(max, initial, steps[..n]);
      OneMoreCounted(max, initial, steps, Run(Next, Fresh(max, initial), steps[..n]).value);
    }
  }

  lemma OneMoreCounted(max: nat, initial: bool, steps: seq<Step>, s: State)
    requires steps != [] && Next(s, steps[|steps| - 1]).Some? && Counted(s, max, initial, steps[..|steps| - 1])
    requires s.monitored == FlagAfter(max, initial, steps[..|steps| - 1])
    requires Next(s, steps[|steps| - 1]).value.monitored == FlagAfter(max, initial, steps)
    ensures Counted(Next(s, steps[|steps| - 1]).value, max, initial, steps)
  {
  }

  /** So in any run the starts that failed are bounded by the steps of the run. */
  lemma BoundedFailures(max: nat, initial: bool, steps: seq<Step>)
    requires max >= 1 && Run(Next, Fresh(max, initial), steps).Some?
    ensures Occurrences(steps, TimedOut)
         <= max * (1 + Flips(max, initial, steps)) + (max - 1) * Occurrences(steps, Started)
  {
    BoundedRetries(max, initial, steps);
    TotalsCountSteps(max, initial, steps);
  }

  /** A command can always be served: its goroutine is spawned and sets the flag. */
  lemma CommandsTakeEffect(s: State)
    ensures
      var started, stopped := Run(Next, s, [RequestStart, RunStart]), Run(Next, s, [RequestStop, RunStop]);
      && started.Some? && started.value.monitored && started.value.tries == s.tries
      && stopped.Some? && !stopped.value.monitored && stopped.value.tries == s.tries
  {
    assert [RequestStart, RunStart][1..] == [RunStart] && [RequestStop, RunStop][1..] == [RunStop];
    RunStep(Next, Next(s, RequestStart).value, RunStart, []);
    RunStep(Next, Next(s, RequestStop).value, RunStop, []);
    assert [RunStart] + [] == [RunStart] && [RunStop] + [] == [RunStop];
  }
}
