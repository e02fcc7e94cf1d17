/** The polling loop of utils/utils.go under an ideal clock: evaluating the
    callback takes no time and timers fire exactly when due. Times are
    milliseconds; a timer with a non-positive duration fires at once. */
module Waiting {
  import opened Products

  const POLL_INTERVAL := 500

  function NotNegative(duration: int): nat {
    if duration < 0 then 0 else duration
  }

  /** The time of poll number `k`. */
  function PollTime(start: nat, k: nat, interval: nat): nat {
    start + k * interval
  }

  /** Whether poll `k` is made when all earlier ones fail; `tie` is the choice of
      `select` when both timers are ready. */
  predicate IsPolled(k: nat, timeout: int, interval: nat, tie: bool) {
    k == 0 || k * interval < timeout || (k * interval == timeout && tie)
  }

  /** The outcome of one wait: success at the first poll that is true, otherwise
      failure at the timeout after every poll was false. */
  ghost predicate Waited(cb: nat -> bool, start: nat, timeout: int, interval: nat, tie: bool,
                         success: bool, end: nat, polls: nat)
  {
    && polls > 0
    && (forall k: nat :: k < polls - 1 ==> !cb(PollTime(start, k, interval)))
    && IsPolled(polls - 1, timeout, interval, tie)
    && cb(PollTime(start, polls - 1, interval)) == success
    && (success ==> end == PollTime(start, polls - 1, interval))
    && (!success ==> end == start + NotNegative(timeout) && !IsPolled(polls, timeout, interval, tie))
  }

  ghost predicate WaitEnds(cb: nat -> bool, start: nat, timeout: int, interval: nat, tie: bool,
                           success: bool, end: nat)
  {
    exists polls: nat :: Waited(cb, start, timeout, interval, tie, success, end, polls)
  }

  lemma NextPoll(start: nat, k: nat, interval: nat)
    ensures PollTime(start, k + 1, interval) == PollTime(start, k, interval) + interval
  {
  }

  method WaitUntil(cb: nat -> bool, start: nat, timeout: int, interval: nat, tie: bool)
    returns (success: bool, end: nat)
    requires interval > 0
    ensures WaitEnds(cb, start, timeout, interval, tie, success, end)
  {
    var now, tick, deadline := start, start + interval, start + NotNegative(timeout);
    ghost var polls := 1;
    while !cb(now)
      invariant polls > 0 && IsPolled(polls - 1, timeout, interval, tie)
      invariant now == PollTime(start, polls - 1, interval) && tick == now + interval
      invariant now <= deadline
      invariant forall k: nat :: k < polls - 1 ==> !cb(PollTime(start, k, interval))
      decreases deadline - now
    {
      NextPoll(start, polls - 1, interval);
      if tick < deadline || (tick == deadline && tie) {
        now := tick;
        tick := now + interval;
        polls := polls + 1;
      } else {
        assert Waited(cb, start, timeout, interval, tie, false, deadline, polls);
        return false, deadline;
      }
    }
    assert Waited(cb, start, timeout, interval, tie, true, now, polls);
    return true, now;
  }

  lemma PollsAreOrdered(j: nat, k: nat, timeout: int, interval: nat, tie: bool)
    requires j <= k && interval > 0 && IsPolled(k, timeout, interval, tie)
    ensures IsPolled(j, timeout, interval, tie)
  {
    if j < k {
      ProductOrder(interval, j, k - 1);
      NextPoll(0, k - 1, interval);
    }
  }

  /** A wait succeeds exactly when some poll it can make is true. */
  lemma SuccessIff(cb: nat -> bool, start: nat, timeout: int, interval: nat, tie: bool,
                   success: bool, end: nat, polls: nat)
    requires interval > 0
    requires Waited(cb, start, timeout, interval, tie, success, end, polls)
    ensures success <==> exists k: nat :: IsPolled(k, timeout, interval, tie) && cb(PollTime(start, k, interval))
  {
    if !success {
      forall k: nat | IsPolled(k, timeout, interval, tie)
        ensures !cb(PollTime(start, k, interval))
      {
        if k >= polls {
          PollsAreOrdered(polls, k, timeout, interval, tie);
        }
      }
    }
  }

  /** A wait ends by the timeout, after at most timeout / interval + 1 polls. */
  lemma WaitIsBounded(cb: nat -> bool, start: nat, timeout: int, interval: nat, tie: bool,
                      success: bool, end: nat, polls: nat)
    requires interval > 0
    requires Waited(cb, start, timeout, interval, tie, success, end, polls)
    ensures start <= end <= start + NotNegative(timeout)
    ensures polls <= NotNegative(timeout) / interval + 1
  {
    QuotientBound(polls - 1, interval, NotNegative(timeout));
  }

  lemma QuotientBound(k: nat, interval: nat, t: nat)
    requires interval > 0 && k * interval <= t
    ensures k <= t / interval
  {
    var q := t / interval;
    NextPoll(0, q, interval);
    if q < k {
      ProductOrder(interval, q + 1, k);
    }
  }

  lemma {:induction false} FirstMultiple(d: nat, interval: nat) returns (k: nat)
    requires interval > 0
    ensures d <= k * interval < d + interval
  {
    if d == 0 {
      k := 0;
    } else {
      k := FirstMultiple(d - 1, interval);
      if k * interval < d {
        NextPoll(0, k, interval);
        k := k + 1;
      }
    }
  }

  /** A predicate that holds from `since` on, at least one interval before the
      timeout, is seen within one interval. */
  lemma StableIsSeen(cb: nat -> bool, start: nat, timeout: int, interval: nat, tie: bool,
                     success: bool, end: nat, polls: nat, since: nat)
    requires interval > 0
    requires Waited(cb, start, timeout, interval, tie, success, end, polls)
    requires start <= since && since + interval <= start + timeout
    requires forall t: nat :: since <= t ==> cb(t)
    ensures success && end < since + interval
  {
    var k := FirstMultiple(since - start, interval);
    assert IsPolled(k, timeout, interval, tie) && cb(PollTime(start, k, interval));
    SuccessIff(cb, start, timeout, interval, tie, success, end, polls);
    assert polls - 1 <= k;
    ProductOrder(interval, polls - 1, k);
  }
}
